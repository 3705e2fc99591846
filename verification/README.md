# Infra Companion: verified models of its protocol and parsing core

A Dafny project that models the byte-level, event-level and text-level core of Infra Companion, an SSH
and terminal client, and proves what that code promises. `dafny verify dfyconfig.toml` checks all of it.

Code that changes its own fields step by step is a class whose methods are proved against a step
function; code that is a fold or an expression is a function. What is promised is then proved about the
step functions: over every run, every chunking of a stream, or every input. Where the code does not
meet a property on all inputs, the exact condition under which it does is a theorem, with an input that
shows the failure.

| area | modules |
|---|---|
| tunnel data plane: client bytes kept for a change of route, the marker filter, one forwarded connection | UpstreamRelay, MarkerStripper, TunnelConnection, TunnelLaws |
| login scripts compiled to one shell command | ShellReader, LoginScript, LoginSteps, LoginScriptProof |
| cron schedules | Calendar, CronFields, CronText, CronGrammar, CronRun, CronDays, CronLaws |
| JSON lines, JSON-RPC peer, reducer of agent events | Jsonl, RpcPeer, RpcFates, RpcEffects, RpcThrowing, ThreadEvents, ThreadLaws |
| Telnet (RFC 854, RFC 855, RFC 1073) and SOCKS5 (RFC 1928) byte parsers | Telnet, TelnetLaws, Socks5, Socks5Laws |
| runbook text, command-history search, host export | Text, Runbooks, RunbookLaws, RunbookMeaning, RunbookRoundTrip, CommandHistory, ScoreLaws, SearchLaws, Aliases, HostExport |
| two-bone arm and hand swing of the avatar | ArmIk, ArmSwing |

Basics holds optional values, bytes, concatenation of chunks and pattern search.

## What the proofs found

* A tunnel relay replays the client's stream whole exactly when nothing was confirmed and at most
  256 KiB had been sent when the new channel was attached. More than that loses bytes even before any
  channel was attached, and a failed exec switches routes without asking whether the copy is whole.
* A client that leaves while `nc` is silent still gets a native channel opened and its bytes replayed
  to it: the listener for `close` is added after `close` was emitted.
* On the script route the end of a normal answer can be lost: the exec channel's `end` says that the
  filter has taken the bytes, not that the client has, and the client is then ended at once. A client
  that reads more slowly than the channel sends misses what the filter still holds; it has the whole
  answer if and only if nothing is held at that moment. The remark at `TunnelService.ts:328` that the
  filter is flushed by then does not hold for a full socket.
* The 64 KiB limit of the marker filter is tested after each chunk, so whether a stream is refused can
  depend on its chunking; both the streams that some chunking refuses and those that every chunking
  refuses are characterised. The source's remark that only a 4 KiB tail is kept is not what it does.
* A schedule that can only fall on February 29 has no next run when none lies within 1830 days, for
  instance counted from March 2096. Every other valid schedule always has one. The remark on the two
  day columns in `schedule.ts:25` differs from the code, which takes either column only if both are
  restricted; the model follows the code.
* A typed step `ssh web01 uptime` is taken for a hop to `web01`, but ssh runs `uptime` with the nested
  command as arguments. A hop reads back exactly when its target is one host with options of ssh, and
  the command it is to run is neither empty nor begins like an option of a shell (`-`, `+`). With such a
  step last, SFTP is not reached either: `uptime -s sftp` is run.
* The expressions `constructor` and `__proto__` make the cron parser throw: the table of aliases
  inherits them.
* A callback of the JSON-RPC peer that throws drops the frames behind it in the same chunk, so there the
  chunking can be seen; for a text it cannot exactly when no frame of the text but its last throws.
* An empty failure reason rejects the waiting requests but does not close the JSON-RPC peer.
* A SOCKS5 request for another command than CONNECT is refused only when its fourth byte has come; any
  other stream that cannot connect is refused at once.
* The Telnet window size is unreadable when a high byte, before it is cut to eight bits, is a larger
  number that becomes 255: 130816 columns, for instance. All sizes below 65536 are safe.
* A printed runbook is read back unchanged exactly when every step is well formed; a note with a line
  that starts with `##`, `!!` or `$ `, or a command that is empty, is not.
* The number of hosts shown for a command is one too small when a host is called `__local__` and the
  command also ran in a local session.
* The two bones of the arm keep their lengths exactly when 0.9995(a+b) is at least |a-b| and the pole
  settles the side. The lower end of the reach is |a-b| + 0.0001, where the comment says |a-b|.

## Model

| member | source | states |
|---|---|---|
| UpstreamRelay.CopyIsAllOrNothing | packages/core/src/connection/TunnelService.ts:437-454 | over every run the kept copy is the client's whole stream while nothing is confirmed and at most 256 KiB were sent, and empty otherwise, never a part |
| UpstreamRelay.TargetFollowsClient | packages/core/src/connection/TunnelService.ts:437-449 | a channel that stays attached gets every byte the client sends, in order, and the end exactly when the client ended |
| UpstreamRelay.ReplayLaw | packages/core/src/connection/TunnelService.ts:429-476 | an attached channel has got the whole stream if, at its attach, nothing was confirmed and at most the cap was sent; failing that exactly the bytes after the attach, which are the whole only if nothing came before; the end exactly when the client ended |
| UpstreamRelay.EarlyBytesLostBeyondCap | packages/core/src/connection/TunnelService.ts:438-442 | a run that loses bytes before the first attach |
| UpstreamRelay.Relay.constructor | packages/core/src/connection/TunnelService.ts:430-436 | a fresh relay is the fresh state |
| UpstreamRelay.Relay.OnData | packages/core/src/connection/TunnelService.ts:437-444 | a client chunk is counted, kept within the cap and passed on as the step function says |
| UpstreamRelay.Relay.OnEnd | packages/core/src/connection/TunnelService.ts:445-448 | the client's end is remembered and passed on |
| UpstreamRelay.Relay.IsReplayable | packages/core/src/connection/TunnelService.ts:452-454 | whether the copy is still whole |
| UpstreamRelay.Relay.AttachTo | packages/core/src/connection/TunnelService.ts:457-464 | the kept chunks are written to the new channel in order, then the end if it has come |
| UpstreamRelay.Relay.DetachTarget | packages/core/src/connection/TunnelService.ts:466-468 | nothing is passed on any more, the copy stays |
| UpstreamRelay.Relay.ConfirmRoute | packages/core/src/connection/TunnelService.ts:471-475 | the copy is dropped once, for good |
| MarkerStripper.StripperMeetsSpec | packages/core/src/connection/TunnelService.ts:496-515 | after any chunks that did not fail the output is the stream behind its first marker, and a failure means more than 65536 bytes without it |
| MarkerStripper.SplitsAgree | packages/core/src/connection/TunnelService.ts:496-515 | two splits of one stream that do not fail give the same output, the bytes after the first marker |
| MarkerStripper.SomeSplitFails | packages/core/src/connection/TunnelService.ts:502-511 | some split fails if and only if the first 65537 bytes hold no marker |
| MarkerStripper.EverySplitFails | packages/core/src/connection/TunnelService.ts:502-511 | every split fails if and only if the stream is longer than the limit and holds no marker at all |
| MarkerStripper.FirstOccurrenceIsStable | packages/core/src/connection/TunnelService.ts:502-505 | later bytes never move the first marker |
| MarkerStripper.StripUntilMarker.Transform | packages/core/src/connection/TunnelService.ts:496-515 | one chunk, as the filter handles it |
| TunnelConnection.RunKeepsInv | packages/core/src/connection/TunnelService.ts:187-333 | every run of one forwarded connection keeps the invariant of both routes, the relay and the client |
| TunnelConnection.SingleRoute | packages/core/src/connection/TunnelService.ts:286-332 | the client gets bytes of one route only, whatever the exec channel still produces after the switch, which cuts its pipe; at most one switch, only where allowed, never after a byte was delivered |
| TunnelConnection.SwitchIsLegal | packages/core/src/connection/TunnelService.ts:265-305 | the step that switches has delivered nothing; unless exec failed, the relay still holds all the client sent |
| TunnelConnection.ClientGetsTheRoute | packages/core/src/connection/TunnelService.ts:233-331 | what a client that keeps reading has got and what the filter holds for its full socket are together exactly the bytes after the marker; or it has exactly the native channel's bytes; a prefix of the first if the exec channel still produces bytes after it was given up |
| TunnelConnection.WholeRouteExactly | packages/core/src/connection/TunnelService.ts:288-331 | after a normal end a reading client has, then and ever after, the whole route if and only if the filter held nothing when the exec channel ended |
| TunnelConnection.SlowClientLosesTheEnd | packages/core/src/connection/TunnelService.ts:315-331 | for every answer of more than one byte, a run in which a slow client that reads on gets only its first byte |
| TunnelConnection.ChannelGetsWholeStream | packages/core/src/connection/TunnelService.ts:231-314 | over a run with its switch the channel in use has the client's stream from its first byte if and only if at most the cap was sent when it opened |
| TunnelConnection.SwitchAfterExecFailureCanLose | packages/core/src/connection/TunnelService.ts:266-270 | a run in which the switch after a failed exec loses bytes |
| TunnelConnection.OrphanNativeExactly | packages/core/src/connection/TunnelService.ts:206-241 | a native channel is opened for a client that has gone exactly when it had gone before the switch |
| TunnelConnection.OrphanNativeHappens | packages/core/src/connection/TunnelService.ts:206-305 | such a run |
| TunnelLaws.EveryEventHasItsOutcome | packages/core/src/connection/TunnelService.ts:199-331 | over every run, for every event: exactly when it ends or destroys the client, switches the route, frees, opens or settles a channel, told by phases, counts and what the client sent |
| TunnelLaws.NoClientHangs | packages/core/src/connection/TunnelService.ts:199-305 | over every run a client without a route was ended or destroyed, and a native channel that was refused, timed out or came too late destroyed it |
| TunnelLaws.BothRoutesRefused | packages/core/src/connection/TunnelService.ts:223-305 | the run in which `nc` is absent and direct-tcpip is refused: the client is destroyed |
| TunnelLaws.ObserverSeesTheEvents | packages/core/src/connection/TunnelService.ts:233-324 | what these laws call sent, produced and delivered is what the events carried |
| TunnelLaws.NothingForAGoneClient | packages/core/src/connection/TunnelService.ts:233-322 | a client that was ended or destroyed, or has ended, gets no byte of either route any more |
| TunnelLaws.EveryByteHasItsPlace | packages/core/src/connection/TunnelService.ts:233-322 | event by event, which bytes for the client are written, which wait behind a full socket, and which leave it when it drains |
| TunnelConnection.ForwardedConnection.constructor | packages/core/src/connection/TunnelService.ts:248-264 | a new connection is the fresh state |
| TunnelConnection.ForwardedConnection.ClientData | packages/core/src/connection/TunnelService.ts:437-444 | the whole connection after a client chunk |
| TunnelConnection.ForwardedConnection.ClientEnd | packages/core/src/connection/TunnelService.ts:445-448 | the whole connection after the client's end |
| TunnelConnection.ForwardedConnection.SocketClosed | packages/core/src/connection/TunnelService.ts:206-327 | what the listeners for `close` that are registered by then do |
| TunnelConnection.ForwardedConnection.ForwardNative | packages/core/src/connection/TunnelService.ts:187-212 | the switch to a native channel |
| TunnelConnection.ForwardedConnection.FinishScript | packages/core/src/connection/TunnelService.ts:288-313 | settles the script route once: ends the client, switches, or gives up |
| TunnelConnection.ForwardedConnection.ExecFailed | packages/core/src/connection/TunnelService.ts:266-274 | a failed exec falls back without asking the relay |
| TunnelConnection.ForwardedConnection.ExecOpened | packages/core/src/connection/TunnelService.ts:275-331 | an opened exec channel is attached, or dropped if the client has gone |
| TunnelConnection.ForwardedConnection.ScriptData | packages/core/src/connection/TunnelService.ts:322-324 | a chunk of the exec channel goes through the filter, which may fail, pass bytes on, or hold them for the marker or a full socket |
| TunnelConnection.ForwardedConnection.FilterPassed | packages/core/src/connection/TunnelService.ts:315-322 | bytes out of the filter are written to the client, which may fill its socket, counted, and confirm the route |
| TunnelConnection.ForwardedConnection.SocketDrained | packages/core/src/connection/TunnelService.ts:315-322 | a drained socket takes held bytes in order until it is full again |
| TunnelConnection.ForwardedConnection.NativeOpened | packages/core/src/connection/TunnelService.ts:217-241 | a native channel that opened is attached, or destroyed if already settled |
| TunnelConnection.ForwardedConnection.NativeNotOpened | packages/core/src/connection/TunnelService.ts:199-230 | a native channel that failed or timed out destroys the client unless the route was settled before; TunnelLaws says over every run what that means |
| TunnelConnection.ForwardedConnection.NativeData | packages/core/src/connection/TunnelService.ts:233 | native bytes go to the client |
| TunnelConnection.ForwardedConnection.NativeStreamOver | packages/core/src/connection/TunnelService.ts:233-240 | the end or error of the native channel |
| ShellReader.LexQuoted | packages/core/src/connection/loginScript.ts:8-13 | a quoted text is read back as itself, whatever its characters |
| ShellReader.LexConservesBackslashes | packages/core/src/connection/loginScript.ts:8-13 | every backslash read is in a word or produced a quote |
| ShellReader.LexUnclean | packages/core/src/connection/loginScript.ts:125-141 | unquoted text with a special character never reads as words only |
| LoginScript.ParseLoginActions | packages/core/src/connection/loginScript.ts:70-91 | the loop over steps equals the reference scan, whose actions LoginSteps describes on the typed text |
| LoginSteps.ParsedActionsExactly | packages/core/src/connection/loginScript.ts:70-91 | the actions are, each in its place, exactly what the text of the steps that are not secret means, with the password of the step right after |
| LoginSteps.LineIsReadAsMeant | packages/core/src/connection/loginScript.ts:46-88 | a line is an action if and only if its text says so: `su` and the last word that is no flag, or root; `sudo` and the word behind its first `-u`, or nobody; `ssh` and everything behind it; white space around it does not matter |
| LoginSteps.TypedLinesAreRead | packages/core/src/connection/loginScript.ts:46-88 | for every plain word U, `su U` and `su - U` mean U, `sudo -u U` and `ssh U` too; `su` and `su -` mean root, `sudo` nobody |
| LoginSteps.LongerNamesAreNoAction | packages/core/src/connection/loginScript.ts:80-87 | a name with one more letter, digit or underscore (`sudox`, `su1`, `sshx`) is no action |
| LoginSteps.OtherCommandsAreNoAction | packages/core/src/connection/loginScript.ts:79-88 | nor is any line that begins otherwise |
| LoginScript.LastSshIndex | packages/core/src/connection/loginScript.ts:157-161 | the backward scan finds the last ssh hop |
| LoginScript.WrapOutwards | packages/core/src/connection/loginScript.ts:167-178 | the loop from the inside out builds the nested command |
| LoginScript.DeriveNestedCommand | packages/core/src/connection/loginScript.ts:148-293 | the derived command, null included |
| LoginScript.DeriveSftpExec | packages/core/src/connection/loginScript.ts:218-258 | the derived SFTP command, null included |
| LoginScriptProof.HopReadsExactly | packages/core/src/connection/loginScript.ts:104-141 | a layer is read by the conservative shell reader as its action, exact password and exact inner command, if and only if its unquoted name is accepted by that reader, an ssh target names one host and no remote command, and the inner command can be handed on |
| LoginScriptProof.CommandIsTaken | packages/core/src/connection/loginScript.ts:138-141 | after the words of a target ssh takes the quoted word as its remote command if and only if those words name one host with options |
| LoginScriptProof.RemoteWordsComeFirst | packages/core/src/connection/loginScript.ts:87-140 | a target with a word of a remote command gets the hop's command behind that word |
| LoginScriptProof.TypedRemoteCommandIsNotAHop | packages/core/src/connection/loginScript.ts:87-140 | so for every `ssh HOST WORD` |
| LoginScriptProof.EveryLayerReadsExactly | packages/core/src/connection/loginScript.ts:143-179 | at any depth every layer reads back if and only if every layer's name does, as above, and the innermost command can be handed on |
| LoginScriptProof.PeelingGivesTheActions | packages/core/src/connection/loginScript.ts:143-179 | peeling all layers yields the actions in order and the original command verbatim |
| LoginScriptProof.DerivedCommandMeaning | packages/core/src/connection/loginScript.ts:62-293 | non-null exactly when another host is entered; it makes the hops up to the last ssh and runs the given command if and only if all hops read literally and the command is neither empty nor an option |
| LoginScriptProof.SubsystemReads | packages/core/src/connection/loginScript.ts:234-236 | the SFTP line of the last host is read as a request of that subsystem, with its exact password, if and only if the target is accepted by the conservative reader, names a host and no remote command, and leaves room for `-s` |
| LoginScriptProof.TypedRemoteCommandIsNoSftp | packages/core/src/connection/loginScript.ts:234-236 | every `ssh HOST WORD` runs the word with `-s sftp` as arguments and reaches no SFTP |
| LoginScriptProof.DerivedSftpMeaning | packages/core/src/connection/loginScript.ts:218-258 | null exactly without hops; else SFTP reaches the user of the last step, by the subsystem of the last host or by the server binary behind every hop, if and only if the hops before read literally and the target of a last ssh leaves room for the request |
| LoginScriptProof.StdinLaw | packages/core/src/connection/loginScript.ts:108-122 | every su/sudo reads its own password if and only if no password has a line break; the stream form keeps standard input whole unless an ssh was told to read nothing, the one-shot form drops it |
| LoginScriptProof.DerivedStdin | packages/core/src/connection/loginScript.ts:108-293 | so for the hops read out of any derived command and the passwords typed for its su and sudo steps |
| LoginScriptProof.NcCommandReads | packages/core/src/connection/TunnelService.ts:258-262 | off the native route the deepest shell runs exactly `nc` on the destination host and port |
| LoginScriptProof.RouteExactly | packages/core/src/connection/TunnelService.ts:43-51 | a tunnel goes through the script if and only if a step enters another host and the destination has none but letters, digits, dots, colons and dashes; and never natively if and only if that is `localhost` in any case, 127.0.0.1 or ::1 |
| Calendar.DaysFollowTheCalendar | packages/shared/src/schedule.ts:130-149 | each day number is followed by its Gregorian successor |
| Calendar.EveryDateHasItsDay | packages/shared/src/schedule.ts:130-149 | every valid date is the date of its day number, from 1970-01-01 |
| Calendar.DayNumberIsInjective | packages/shared/src/schedule.ts:130-149 | two dates with one day number are equal |
| Calendar.WeekdaysGoRound | packages/shared/src/schedule.ts:107 | day 0 is a Thursday and each day is followed by the next weekday |
| Calendar.ClockShows | packages/shared/src/schedule.ts:138-142 | the clock shows hour and minute of the day |
| CronFields.ParseField | packages/shared/src/schedule.ts:41-70 | the loop over parts yields the ascending values of the column, or null |
| CronFields.AddRange | packages/shared/src/schedule.ts:67 | one range adds exactly its values |
| CronFields.StepsAreTheProgression | packages/shared/src/schedule.ts:67 | a range holds exactly the terms of its progression up to its end |
| CronFields.FieldReadsBack | packages/shared/src/schedule.ts:41-70 | a column written from any parts is refused exactly when a part leaves the column or has step 0, and else reads back as the values meant |
| CronText.ExpressionReadsBack | packages/shared/src/schedule.ts:72-95 | five columns written from any parts, with any white space around and between, are read as the schedule meant, and refused exactly when a part leaves its column or has step 0 |
| CronText.AliasesMean | packages/shared/src/schedule.ts:30-75 | every alias, in any case, is read as the schedule it promises; every other `@` name is refused |
| CronGrammar.PartIsReadExactly | packages/shared/src/schedule.ts:43-66 | a part of a column is accepted if and only if it is, white space around it aside, `*`, one or two digits, or two such numbers with a dash, with a step of at least 1 behind a slash or without, within the column; and with exactly that range |
| CronGrammar.ColumnIsReadExactly | packages/shared/src/schedule.ts:41-70 | a column is accepted if and only if each of its parts is, and lists exactly what some part lists |
| CronGrammar.ExpressionIsReadExactly | packages/shared/src/schedule.ts:72-95 | any text that is no name is accepted if and only if its words are five accepted columns, and reads as what they say |
| CronGrammar.InheritedNamesThrow | packages/shared/src/schedule.ts:74-75 | exactly `constructor` and `__proto__` make the parser throw |
| CronLaws.ParsedIsWellFormed | packages/shared/src/schedule.ts:72-95 | what is parsed has no empty column and no value out of range, Sunday being 0 |
| CronRun.LeastMatch | packages/shared/src/schedule.ts:105-152 | the reference search: the least matching minute of an interval, or none; CronDays says which minutes match |
| CronRun.ScanDay | packages/shared/src/schedule.ts:136-145 | a listed day is scanned to its least matching minute; an unlisted one has none |
| CronRun.SearchDays | packages/shared/src/schedule.ts:135-151 | the day-skipping search equals the reference search over 1831 days |
| CronRun.NextCronRun | packages/shared/src/schedule.ts:127-152 | the next run of an expression, null for one that is not understood, an exception for a name the alias table inherits; CronDays and CronLaws say which minute it is |
| CronDays.RunsAtExactly | packages/shared/src/schedule.ts:105-143 | a schedule runs at a minute of a date if and only if month, hour and minute are listed and the date or its weekday is, in a column that restricts, or neither restricts |
| CronDays.EitherDayColumn | packages/shared/src/schedule.ts:108 | with both day columns restricted the next run is the earlier of those of the two schedules that go by one of them alone |
| CronDays.FreeColumnHasNoSay | packages/shared/src/schedule.ts:109-111 | what a day column that does not restrict lists changes no result |
| CronDays.TheThirteenthIsNext | packages/shared/src/schedule.ts:102-112 | `0 0 13 * 5` at the first minute of any twelfth runs next on the thirteenth |
| CronDays.SundayIsZero | packages/shared/src/schedule.ts:82-85 | a weekday column lists Sunday as 0 exactly when 0 or 7 was written, and the other days as written |
| CronLaws.NextRunIsLeast | packages/shared/src/schedule.ts:127-152 | the result is the least match strictly after the minute of `after`; null means no match in reach |
| CronLaws.WrittenScheduleRuns | packages/shared/src/schedule.ts:127-152 | a written expression runs next when the schedule it means does |
| CronLaws.OrdinaryScheduleIsFound | packages/shared/src/schedule.ts:114-152 | a schedule that does not need February 29 always has a next run |
| CronLaws.FoundExactly | packages/shared/src/schedule.ts:114-152 | exactly when any schedule has a next run |
| CronLaws.LeapDayIsNear | packages/shared/src/schedule.ts:114-121 | February 29 is near enough unless a common century year comes within four years |
| CronLaws.LeapDayTooFar | packages/shared/src/schedule.ts:114-121 | from March 2096 there is no next run |
| CronLaws.TickLaw | packages/shared/src/schedule.ts:154-164 | a tick fires exactly when a matching minute in reach has come since the minute of the last run |
| CronLaws.NoSecondFireInAMinute | packages/shared/src/schedule.ts:154-164 | ticks within the minute of the last run do not fire again |
| CronLaws.FiresWithinMatches | packages/shared/src/schedule.ts:154-164 | over every run of ticks the fires never outnumber the matching minutes that passed: a backlog is one fire |
| Jsonl.SplitJsonl | packages/core/src/codex/jsonl.ts:33-51 | the loop over lines yields the frames, the previews of bad lines and the rest |
| Jsonl.LinesAreThePieces | packages/core/src/codex/jsonl.ts:34-37 | the lines scanned are the pieces that splitting at line breaks gives |
| Jsonl.LineIsFramed | packages/core/src/codex/jsonl.ts:39-50 | one complete line gives nothing when blank, its value when it parses, else its first 200 characters as dropped |
| Jsonl.TwoChunksAreOne | packages/core/src/codex/jsonl.ts:33-51 | two chunks framed in turn give what one framing of both gives |
| Jsonl.ChunkInvariance | packages/core/src/codex/jsonl.ts:33-51 | frames, dropped lines and rest depend on the text alone |
| RpcPeer.RunKeepsInv | packages/core/src/codex/RpcPeer.ts:69-154 | the invariant of ids, waiting requests, timers and settlements over every run |
| RpcPeer.SettleOnce | packages/core/src/codex/RpcPeer.ts:100-196 | every id settles at most once; waiting is exactly issued and not settled; a timer is live exactly for a waiting request with a limit |
| RpcFates.SettledByItsOwnCloser | packages/core/src/codex/RpcPeer.ts:100-196 | over every run the peer settles an id with the outcome of its own first closing event after its issue (response to it, its timer, failed write, failure) and with nothing else; the reference run is read off the events and the fields of the messages alone |
| RpcFates.ResponseSettles | packages/core/src/codex/RpcPeer.ts:182-196 | a response that is waited for rejects with its error when that is there and is not null, false, 0 or empty text, and else resolves with its result |
| RpcFates.PeerKeepsTheEvents | packages/core/src/codex/RpcPeer.ts:69-154 | the kept reason, the next id and the unfinished line are what the events say |
| RpcFates.DoneIsFinal | packages/core/src/codex/RpcPeer.ts:107-196 | no later event changes an outcome |
| RpcFates.OtherFramesHaveNoSay | packages/core/src/codex/RpcPeer.ts:182-196 | frames that do not answer an id leave it alone |
| RpcEffects.EveryFrameIsDispatched | packages/core/src/codex/RpcPeer.ts:164-196 | by its fields alone, what any message makes of the peer: a question, a notice, a response that settles, or a warning |
| RpcEffects.SpeaksAsTheEventsSay | packages/core/src/codex/RpcPeer.ts:100-210 | over every run what was sent, refused, asked, notified and answered is, in order, what the events say, ids, methods and lost answers included |
| RpcPeer.IdsAreNeverReused | packages/core/src/codex/RpcPeer.ts:100-131 | over every run no id is sent twice, and none before it was issued |
| RpcPeer.FailureIsKeptReason | packages/core/src/codex/RpcPeer.ts:145-147 | the reason kept is the first non-empty one |
| RpcPeer.FailureLaw | packages/core/src/codex/RpcPeer.ts:100-154 | after a reason nothing waits and every request is refused with the first reason; an empty one refuses nothing |
| RpcPeer.EveryQuestionIsAnsweredOnce | packages/core/src/codex/RpcPeer.ts:198-210 | every question of the other side is open, answered once, or lost to two throwing writes |
| RpcPeer.FeedingIsChunkInvariant | packages/core/src/codex/RpcPeer.ts:84-180 | with callbacks that return, one text in two chunks has the same state and the same effects in the same order as in one |
| RpcPeer.ChunkingIsInvisible | packages/core/src/codex/RpcPeer.ts:84-180 | so for every chunking: state and effects, in order, depend on the text received alone |
| RpcThrowing.UntilTheFirstThrow | packages/core/src/codex/RpcPeer.ts:84-90 | all frames of a chunk are handled if and only if none but the last throws |
| RpcThrowing.NothingIsLostExactly | packages/core/src/codex/RpcPeer.ts:84-180 | with callbacks that may throw, nothing is lost if and only if no frame throws but the last of its chunk |
| RpcThrowing.InvisibleExactly | packages/core/src/codex/RpcPeer.ts:84-180 | any two chunkings of a text agree under the same throwing callbacks if and only if no frame of the text but its last throws |
| RpcThrowing.SecondFrameIsLost | packages/core/src/codex/RpcPeer.ts:84-90 | of any two frames of which the first throws, one chunk loses the second |
| RpcPeer.RpcPeer.SendRequest | packages/core/src/codex/RpcPeer.ts:100-131 | one request: refused, sent, or undone when the write throws |
| RpcPeer.RpcPeer.OnTimer | packages/core/src/codex/RpcPeer.ts:107-112 | a timer that fires forgets and rejects its request |
| RpcPeer.RpcPeer.FailAll | packages/core/src/codex/RpcPeer.ts:145-154 | all waiting requests are rejected in order with the kept reason |
| RpcPeer.RpcPeer.HandleResponse | packages/core/src/codex/RpcPeer.ts:182-196 | a response settles its request as RpcFates.ResponseSettles says, an unknown id only warns |
| RpcPeer.RpcPeer.DispatchFrame | packages/core/src/codex/RpcPeer.ts:164-180 | request before response before notification, everything else a warning |
| RpcPeer.RpcPeer.FeedChunk | packages/core/src/codex/RpcPeer.ts:84-91 | one chunk is framed and its frames dispatched in order |
| RpcPeer.RpcPeer.OnHandlerDone | packages/core/src/codex/RpcPeer.ts:198-210 | the reply to a question, with the error reply as second try |
| Telnet.ParseContinues | packages/core/src/connection/TelnetSession.ts:69-118 | parsing the kept bytes with the next chunk continues the parse of both |
| Telnet.RestIsIncomplete | packages/core/src/connection/TelnetSession.ts:80-103 | what is kept is the beginning of a command that is not complete |
| TelnetLaws.ItemsAreTheStream | packages/core/src/connection/TelnetSession.ts:69-108 | the bytes of the items read, then what is kept, are the stream: no byte is lost, made up or moved |
| Telnet.ChunkInvariance | packages/core/src/connection/TelnetSession.ts:69-118 | for every chunking data, answers, options and kept bytes are those of one parse of the stream |
| Telnet.EscapedDataParsesBack | packages/core/src/connection/TelnetSession.ts:173-186 | what `write` sends parses back to the same bytes, with no command and nothing kept |
| Telnet.DoubledEndsAtSe | packages/core/src/connection/TelnetSession.ts:110-118 | the scan for SE walks over doubled bytes and stops at the real one |
| Telnet.WindowSizeExactly | packages/core/src/connection/TelnetSession.ts:160-171 | the window size is understood exactly when no high byte is a larger number cut to 255, so for all sizes below 65536 |
| TelnetLaws.SizeIsRead | packages/core/src/connection/TelnetSession.ts:160-171 | a receiver of the frame finds 31 and the two sizes, high byte first |
| Telnet.AnswersOnlyChanges | packages/core/src/connection/TelnetSession.ts:133-158 | an option request is answered exactly when it changes the agreed state, so repeating it is silent |
| TelnetLaws.AnswersSayWhatHolds | packages/core/src/connection/TelnetSession.ts:133-158 | what a request makes a session send parses as one answer that says what then holds, in the byte values of RFC 854, and behind a newly promised window size the size |
| TelnetLaws.LastRequestDecides | packages/core/src/connection/TelnetSession.ts:69-158 | over every connection and chunking the last request for an option decides: this side turns on SGA, TTYPE and NAWS, accepts ECHO and SGA, and the data shown are the plain bytes |
| TelnetLaws.OnlySupported | packages/core/src/connection/TelnetSession.ts:136-145 | so nothing else is ever on |
| TelnetLaws.TerminalTypeIsSent | packages/core/src/connection/TelnetSession.ts:121-131 | asked for its terminal type it sends one subnegotiation with `xterm-256color`; other items make it send nothing |
| Telnet.TelnetSession.OnData | packages/core/src/connection/TelnetSession.ts:69-108 | one chunk: items acted on in order, the incomplete rest kept |
| Telnet.TelnetSession.RespondOption | packages/core/src/connection/TelnetSession.ts:133-158 | the answer and the new option state; which answer, TelnetLaws says |
| Telnet.TelnetSession.HandleSubnegotiation | packages/core/src/connection/TelnetSession.ts:121-131 | the terminal type is sent when asked for |
| Telnet.TelnetSession.SendWindowSize | packages/core/src/connection/TelnetSession.ts:160-171 | the window-size frame, 255 doubled |
| Telnet.TelnetSession.Write | packages/core/src/connection/TelnetSession.ts:173-186 | user bytes are sent with 255 doubled |
| Telnet.TelnetSession.Resize | packages/core/src/connection/TelnetSession.ts:188-191 | the new size is kept and sent |
| Socks5.DecisionIsMonotone | packages/core/src/connection/socks5.ts:27-82 | once a prefix decides, every longer stream decides the same and only hands back more bytes |
| Socks5.ChunkingDoesNotMatter | packages/core/src/connection/socks5.ts:18-82 | every chunking that does not begin with an empty chunk decides and answers what the whole stream does, no byte behind the request lost |
| Socks5.EmptyFirstChunkFails | packages/core/src/connection/socks5.ts:27-32 | an empty first chunk would be refused at once, which is why chunkings that begin with one are excepted |
| Socks5.ClientIsUnderstood | packages/core/src/connection/socks5.ts:30-80 | a greeting and CONNECT encoded by RFC 1928 are decoded to the same host and port |
| Socks5.ConnectsExactly | packages/core/src/connection/socks5.ts:30-80 | a stream connects to a host and port with a leftover if and only if it is some greeting and CONNECT to them with that leftover behind |
| Socks5.EveryChunkingConnects | packages/core/src/connection/socks5.ts:18-82 | so for every chunking, and leftover with unread chunks is exactly what followed the request |
| Socks5Laws.WaitsExactly | packages/core/src/connection/socks5.ts:27-79 | the handshake goes on if and only if some continuation connects, but for a command other than CONNECT, which it sees only with the fourth byte |
| Socks5Laws.WrongVersionIsRefused | packages/core/src/connection/socks5.ts:30 | a first byte other than 5 is refused at once, without a reply |
| Socks5Laws.OtherMethodsAreRefused | packages/core/src/connection/socks5.ts:34-38 | without the method 0 the reply is 5, 255 |
| Socks5Laws.RequestsAreRefused | packages/core/src/connection/socks5.ts:47-74 | behind a greeting answered 5, 0: another version is refused without a reply, another command with code 7, another address type with code 8 |
| Socks5.Socks5Reader.OnData | packages/core/src/connection/socks5.ts:27-82 | one chunk, both stages |
| Socks5.Socks5Reader.FailWith | packages/core/src/connection/socks5.ts:21-25 | a refusal is final and sends its reply |
| ThreadEvents.ReducerIsItemwise | packages/core/src/codex/events.ts:157-317 | an item after any events is what its own reference run gives |
| ThreadLaws.ItemsFollow | packages/core/src/codex/events.ts:204-305 | by paths into the parameters alone, what any notification makes of any item: its kind, its text, whether it is done; every other item stays |
| ThreadLaws.FrameIsSaidLast | packages/core/src/codex/events.ts:185-244 | over every run phase, error, turn and thread are what was said last about each |
| ThreadLaws.ServersAreUpdated | packages/core/src/codex/events.ts:231-241 | a server that is named is updated in its place or becomes the last one |
| ThreadEvents.ItemLocality | packages/core/src/codex/events.ts:185-317 | an item depends only on the events that name it and on ends of turns |
| ThreadEvents.ItemsInMentionOrder | packages/core/src/codex/events.ts:157-167 | ids stay in the order of first mention |
| ThreadEvents.IdsStayUnique | packages/core/src/codex/events.ts:157-167 | ids stay unique |
| ThreadEvents.ItemsOnlyAdvance | packages/core/src/codex/events.ts:204-305 | no item disappears, is re-opened or changes a kind other than `other` |
| ThreadEvents.CompletionKeepsText | packages/core/src/codex/events.ts:284-298 | completion never shortens a text; only appending to one already beyond the limit does |
| ThreadEvents.TurnEndClosesAll | packages/core/src/codex/events.ts:204-221 | after a turn nothing is left streaming |
| ThreadEvents.DeltasKeepTheEnd | packages/core/src/codex/events.ts:169-177 | however a text is streamed and cut, its last 200000 characters are those of the whole stream |
| Runbooks.ParseRunbookText | packages/shared/src/runbooks.ts:156-196 | the loop over lines yields the steps of the reference parser |
| RunbookMeaning.TextIsReadAsMeant | packages/shared/src/runbooks.ts:156-196 | any text is read as what its lines mean: a heading begins a step with the lines up to the next one, `$` lines are its command, `!!` marks danger and may carry a note, all else is its note without blanks around |
| RunbookLaws.ParsedStepsAreParsable | packages/shared/src/runbooks.ts:156-196 | parsed steps have one-line titles and no trailing blanks |
| RunbookLaws.BlankLineChangesNothing | packages/shared/src/runbooks.ts:163-207 | the empty line between two printed steps leaves the step before it as it is |
| RunbookLaws.RenderedReadsBlockwise | packages/shared/src/runbooks.ts:156-208 | a printed list whose notes hold no heading is read back block by block |
| RunbookRoundTrip.RoundTrip | packages/shared/src/runbooks.ts:156-208 | printing and parsing give back the same steps if and only if every step is well formed |
| RunbookRoundTrip.MarkedNoteIsNotReadBack | packages/shared/src/runbooks.ts:183-186 | a note that looks like a command is never read back |
| RunbookRoundTrip.MarkedLinesShortenTheNote | packages/shared/src/runbooks.ts:177-192 | a note line that means something else always shortens the note read back |
| RunbookRoundTrip.RenderedHeadings | packages/shared/src/runbooks.ts:170-208 | a printed list has a heading for every step and one more for every heading inside a note |
| CommandHistory.PrefixBeatsInner | packages/shared/src/commandHistory.ts:194-224 | a match at the start outranks a match inside a word whatever hosts and ages |
| ScoreLaws.FoundRunScores | packages/shared/src/commandHistory.ts:194-224 | 300, 200 or 100 points by the place where the text stands first, 80 on the host asked for, and 60 less two for each day of age, rounded half up |
| ScoreLaws.EmptyTextScores | packages/shared/src/commandHistory.ts:205-224 | an empty text gives no points for the place, those for host and age all the same |
| ScoreLaws.FoundExactly | packages/shared/src/commandHistory.ts:208-212 | a run is found if and only if its command contains the text |
| CommandHistory.GatherRuns | packages/shared/src/commandHistory.ts:255-282 | the loop over runs with its two tables folds them into one row per command |
| CommandHistory.SearchCommandHistory | packages/shared/src/commandHistory.ts:239-294 | fold, narrow to a host, sort, limit |
| SearchLaws.RunsAreCounted | packages/shared/src/commandHistory.ts:266-271 | a row's run count is the number of runs of its command |
| SearchLaws.LatestRepresents | packages/shared/src/commandHistory.ts:272-281 | a row shows the latest run, the first of equally late ones |
| SearchLaws.BestScores | packages/shared/src/commandHistory.ts:282 | a row's score is the maximum over its runs |
| SearchLaws.HostCountExactly | packages/shared/src/commandHistory.ts:262-286 | the host count is the number of different hosts, less one exactly when `__local__` names both a host and local sessions |
| SearchLaws.LocalNameClashes | packages/shared/src/commandHistory.ts:262-286 | a local run and one on a host called `__local__` are two hosts shown as one |
| SearchLaws.NoRunIsLost | packages/shared/src/commandHistory.ts:255-283 | run counts add up to the number of runs found |
| SearchLaws.NarrowingKeepsCounts | packages/shared/src/commandHistory.ts:287-292 | narrowing to a host keeps a row, unchanged, exactly when a found run of its command ran there |
| SearchLaws.SortOrders | packages/shared/src/commandHistory.ts:293 | rows are ordered by score, the best first, then by time, the latest first |
| SearchLaws.SortIsStable | packages/shared/src/commandHistory.ts:293 | rows of equal rank keep their order |
| SearchLaws.SearchMeetsSpec | packages/shared/src/commandHistory.ts:239-294 | over every query: ordered, one row per command, each described by all its runs, run counts conserved |
| SearchLaws.NoCommandIsMissing | packages/shared/src/commandHistory.ts:239-294 | every command found, on the chosen host if any, has a row |
| SearchLaws.LimitCuts | packages/shared/src/commandHistory.ts:294 | a limit cuts the list short and changes nothing else |
| Aliases.FirstFree | packages/core/src/exporters/hostExport.ts:61-66 | the loop over suffixes ends at the first candidate not in use |
| Aliases.UniqueAliases | packages/core/src/exporters/hostExport.ts:58-69 | every alias is the first candidate that no earlier label took |
| Aliases.CollisionsAreBounded | packages/core/src/exporters/hostExport.ts:63-65 | no more candidates collide than there are names in use |
| Aliases.AliasesAreDistinct | packages/core/src/exporters/hostExport.ts:58-69 | no two hosts share an alias |
| Aliases.AliasesAreStable | packages/core/src/exporters/hostExport.ts:58-69 | an alias depends only on the labels up to its own |
| Aliases.SuffixIsSmall | packages/core/src/exporters/hostExport.ts:61-66 | a label is kept as it is exactly when no earlier alias equals it; else its suffix is at most its place in the list |
| HostExport.GroupChain | packages/core/src/exporters/hostExport.ts:75-87 | the walk to the root ends, on cyclic parents too, with the chain of the reference walk |
| HostExport.ChainIsAncestors | packages/core/src/exporters/hostExport.ts:75-87 | the chain lists the ancestors in order |
| HostExport.ChainCovers | packages/core/src/exporters/hostExport.ts:75-87 | the guard against cycles loses no ancestor of the unguarded walk |
| HostExport.NearestGroupWins | packages/core/src/exporters/hostExport.ts:104-105 | an inherited value is set by an ancestor and by none nearer; none exactly when no ancestor sets it |
| HostExport.TableHolds | packages/core/src/exporters/hostExport.ts:97-100 | a look-up table holds exactly the keys given, with the value of the last entry of each |
| HostExport.ResolveForExport | packages/core/src/exporters/hostExport.ts:96-129 | the rows of an export |
| HostExport.RowsInherit | packages/core/src/exporters/hostExport.ts:102-128 | login and route of a row are the host's own or inherited from the nearest group |
| HostExport.RowsAreComplete | packages/core/src/exporters/hostExport.ts:111-120 | the rest of a row is the host's own; its group path is there if and only if its group is, and joins the names of the ancestors from the root down |
| HostExport.KeyIsLabelled | packages/core/src/exporters/hostExport.ts:98-123 | a key is shown by the label of the last key with its id, an empty or unknown id not at all |
| HostExport.JumpsNameOneHostEach | packages/core/src/exporters/hostExport.ts:124-127 | the jump aliases name, each exactly one row, the hosts of the jump chain in order |
| HostExport.KeptExactly | packages/core/src/exporters/hostExport.ts:124-127 | a hop is kept exactly when it is another host of the export |
| HostExport.PathReadsFromRoot | packages/core/src/exporters/hostExport.ts:115-116 | the group path lists the ancestors from the root down |
| ArmIk.BonesKeepTheirLengths | packages/shared/src/vrmArmPose.ts:29-73 | both bones keep their lengths if and only if full stretch is no shorter than the difference of the bones and the pole settles the side (where the two are equal the arm is straight and needs no side) |
| ArmIk.LopsidedArmFails | packages/shared/src/vrmArmPose.ts:58 | an upper bone 4000 times the lower one is never kept, whatever the target |
| ArmIk.PoleOnTheAxisFails | packages/shared/src/vrmArmPose.ts:63-65 | two equal bones are not kept for a target almost straight ahead, yet not exactly, with the pole on it |
| ArmIk.NearlyForwardArmFails | packages/shared/src/vrmArmPose.ts:63-65 | such targets given by a formula |
| ArmIk.SideIsNormal | packages/shared/src/vrmArmPose.ts:63-65 | the elbow leaves the axis at a right angle if and only if the pole settles the side |
| ArmIk.HandIsAtReach | packages/shared/src/vrmArmPose.ts:58-60 | the hand is the clamped reach away from the shoulder |
| ArmIk.HandReachesTarget | packages/shared/src/vrmArmPose.ts:58-60 | the hand is on the target exactly when the target is neither too close nor too far; a target at the shoulder leaves the arm hanging |
| ArmIk.ShareIsReported | packages/shared/src/vrmArmPose.ts:73 | the share reported is the clamped reach as a part of both bones |
| ArmIk.ElbowIsOnThePoleSide | packages/shared/src/vrmArmPose.ts:62-69 | the elbow lies in the plane of axis and pole, on the side of the pole |
| ArmIk.BendIsTheElbowAngle | packages/shared/src/vrmArmPose.ts:71-72 | the reported bend is the angle between the two bones |
| ArmSwing.StaysWithinBound | packages/shared/src/vrmArmPose.ts:363-384 | however the body turns, a step that moves the hand leaves it within its bound |
| ArmSwing.EnergyNeverGrows | packages/shared/src/vrmArmPose.ts:363-384 | with the body at rest no step of any length adds energy |
| ArmSwing.ThrownBack | packages/shared/src/vrmArmPose.ts:363-384 | a hand at rest is thrown against the velocity of its hanging point, by 5.5 h h times it or to its bound of 6 cm |
| ArmSwing.SwingIsTame | packages/shared/src/vrmArmPose.ts:331-384 | both over every run of frames |
| ArmSwing.ArmSwing.StepArmSwing | packages/shared/src/vrmArmPose.ts:363-384 | one frame, updating the state in place |

## Left out

* Sockets, SSH channels, child processes and their libraries: they are events that open, fail, deliver
  bytes, end or close. Pausing and draining towards the exec or native channel, and of the native channel
  towards the client, which its pipe ends only after the last byte, affect only when bytes are sent; a
  full client socket on the script route is modelled.
* A native tunnel without a login script is one pipe in each direction and is not modelled.
* A client that half-closes is one that stops reading, as the socket library's defaults make it.
* Texts of messages shown to the user, and what standard error holds.
* The clock: ticks and `now` are arguments. Dates are a Gregorian calendar without daylight-saving
  changes and without the host language's limits on dates; lower-casing in cron expressions is ASCII.
* Strings are sequences of characters; lengths in UTF-16 units, and lower-casing in the history search,
  are not modelled beyond a given function.
* The shell reader knows the forms the compiler emits and is conservative: the only-if half of the laws
  about unquoted names is about this reader, which refuses `#`, `~`, braces and patterns anywhere. What
  `echo` itself does with an argument like `-n` or with backslashes, the NUL byte, what `-o` settings in
  an ssh target change, and what `nc` makes of a host that begins with a dash are outside it.
* JSON.parse, StringDecoder and JSON.stringify are given functions; numbers in JSON-RPC ids are
  integers, and an undefined result is null. A warning for a bad line never throws. The order between warnings for bad lines and dispatch
  within one chunk depends on the chunking and is not stated; `notify` only writes.
* RpcPeer.ChunkingIsInvisible: takes callbacks that return, as does the object's own feeding method;
  RpcThrowing.InvisibleExactly says for callbacks that throw exactly when it still holds.
* A Telnet session whose socket is gone writes nothing; sizes are unbounded integers.
* The rendering of SOCKS5 addresses as text; errors of the socket after the handshake has settled.
* Redaction of secrets, prompt stripping and the `redacted` flag of a history row, which the code does
  not refresh when a newer run becomes the representative.
* The regular expressions of `sshAlias` (a given function), and the printers of ssh_config, CSV and JSON.
* Floating-point rounding: arithmetic is over the reals, and square root, sine, cosine and arc cosine
  are known only by their defining equations.
* The rest of the application: stores, windows, listeners, remote forwarding, cloud importers, the
  other avatar helpers.
