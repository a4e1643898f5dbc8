# MStarPlayer MQTT plugin — Dafny model of the bridge core

The plugin connects the M*Player media player to an MQTT broker. Player
events (playing/stopped, next/previous entry, position) are published under
`<prefix>/monitor/<player>/<event>`. Inbound messages on
`<prefix>/control/<player>/<command>` are turned into calls of the host's
`play`, `stop`, `next` and `previous` callbacks. The configuration
(server, port, client name, topic prefix) travels as four lines of text. One
MQTT client and its network-loop thread live in a connection slot that
`setup` refills and `teardown` empties.

The model works on bytes, as Rust does. A Rust `&str` or `String` is a byte
sequence that is well-formed UTF-8 (`Utf8.IsUtf8`, Table 3-7 of the Unicode
Standard, section 3.9). This is also what `CStr::to_str` checks.

| file | module | models |
|---|---|---|
| `wrappers.dfy` | `Wrappers` | `Option`, `Result` |
| `utf8.dfy` | `Utf8` | bytes, `to_str` well-formedness, UTF-8 closure facts |
| `str_split.dfy` | `StrSplit` | `str::split(c)` and its inverse join |
| `decimal.dfy` | `Decimal` | `u16` display and `u16::from_str` |
| `topics.dfy` | `Topics` | monitor-topic composition, control-topic decoding (`handle_message`'s checks) |
| `config.dfy` | `Config` | `Configuration`, its default, the four-line text codec |
| `connection.dfy` | `Connection` | the `CLIENT`/`JOIN_HANDLE` slot, `setup`, `teardown` |
| `bridge.dfy` | `Bridge` | the plugin state and every entry point: `mstarInit`, `mstarConfigure`, `mstarLoadConfiguration`, `mstarGetConfiguration`, `mstarShutdown`, `publish`, the eight player-event handlers, `handle_message` |

The global statics (`CONFIG`, `INIT`, `CLIENT`, `JOIN_HANDLE`) become one
immutable record, `Bridge.State`, and every entry point is a pure function
on it. That record also keeps two logs of what left the plugin:
- every `client.publish` request (thread, topic, QoS, retain flag, payload);
- every host callback invoked (`Bridge.Call`).

Threads are named by a counter. The slot remembers which threads were
spawned and which were joined, so "at most one network-loop thread is
alive" can be stated and proved.

Where the code panics through `expect` (no `CONFIG` in `setup`, in
`mstarGetConfiguration` or in `handle_message`; no `INIT` in
`handle_message`; no join handle in `teardown`), the model has a
precondition. A `CString::new(..).unwrap()` panic is modelled the same way.
The one exception is `publish` (see "## Findings").

Behaviour of the code that the model keeps, although a reader might expect
otherwise:
- An empty configuration text does not clear the configuration. `""` splits
  into one line, so it is rejected and nothing changes
  (`Bridge.LoadEmptyTextChangesNothing`).
- The port accepts whatever `u16::from_str` accepts. That includes `0`, a
  leading `+` and leading zeros.
- `setup` and `mstarGetConfiguration` panic when nothing is configured. The
  unit test at src/lib.rs:230-234 calls `mstarGetConfiguration` in exactly
  that state, so it would panic at src/lib.rs:203. The model keeps the
  precondition, because the test states no intended result.
- The four metadata handlers never read `CONFIG`, so they accept every
  state.
- `handle_message` checks the player name for a NUL byte before it looks at
  the command, and it reads `INIT` only after the name passed. So
  `HandleMessage` needs the callback table only for topics that get that far.

## Model

| member | source | states |
|---|---|---|
| `Utf8.ConcatIsUtf8` | src/lib.rs:204-207 | concatenating Rust strings (what `format!` does) yields well-formed UTF-8 |
| `Utf8.CutAtAsciiIsUtf8` | src/lib.rs:173 | an ASCII byte inside well-formed UTF-8 is a scalar boundary: both sides of it are well-formed |
| `StrSplit.Split` | src/mqtt.rs:13-15 | `split('/')` yields exactly one more segment than the text has separators (so `""` gives one segment), and no segment holds the separator |
| `StrSplit.JoinSplit` | src/mqtt.rs:13 | joining the segments with the separator gives back the text |
| `StrSplit.SplitJoin` | src/mqtt.rs:13-23 | splitting separator-free segments joined by the separator gives back exactly those segments |
| `StrSplit.SplitAround` | src/mqtt.rs:13 | splitting `a/b` is splitting `a` followed by splitting `b` |
| `StrSplit.FirstSegmentIsPrefix` | src/mqtt.rs:20 | the first segment is a prefix of the text, strictly shorter when the text holds the separator |
| `StrSplit.SplitKeepsUtf8` | src/lib.rs:173 | every line of a UTF-8 text split on `\n` is a Rust string |
| `Decimal.Format` | src/lib.rs:204-207 | the displayed port is a non-empty digit string without leading zeros that denotes the port |
| `Decimal.AccumulateMeaning` | src/lib.rs:180 | digit-by-digit checked accumulation succeeds exactly when every byte is a digit and the whole value fits in 16 bits, and yields that value |
| `Decimal.ParseU16Meaning` | src/lib.rs:180-186 | `parse::<u16>()` accepts exactly an optional `+` followed by one or more digits worth less than 65536, and yields their value |
| `Decimal.ParseFormat` | src/lib.rs:204-207 | parsing the displayed text of a port gives the port back |
| `Decimal.FormatIsPlainText` | src/lib.rs:204-209 | the displayed port holds no newline and no NUL and is well-formed UTF-8 |
| `Topics.ParseCommand` | src/mqtt.rs:65-81 | a command level is recognised only when it is exactly one of `play`, `stop`, `next`, `previous` |
| `Topics.ParseCommandText` | src/mqtt.rs:65-77 | each command's text is recognised as that command and no other |
| `Topics.Decode` | src/mqtt.rs:12-60 | a topic is rejected for its level count exactly when it does not hold three `/`; an accepted topic is exactly the control topic of the decoded player and command, under a `/`-free prefix, with a `/`-free, NUL-free player name |
| `Topics.DecodeControlTopic` | src/mqtt.rs:13-23 | round trip: the control topic of a `/`-free prefix and a `/`-free, NUL-free player name decodes to exactly that player and command |
| `Topics.DecodeSucceedsExactly` | src/mqtt.rs:12-81 | a topic decodes to a message if and only if it is that message's control topic with a `/`-free prefix and a `/`-free, NUL-free player name |
| `Topics.DecodeRejectsNul` | src/mqtt.rs:51-60 | a four-level control topic under the prefix whose player name holds NUL is dropped as an invalid player name |
| `Topics.DecodeRejectsUnknownCommand` | src/mqtt.rs:78-80 | a four-level control topic under the prefix naming none of the four commands is dropped as an unknown command |
| `Topics.DecodeRejectsForeignPrefix` | src/mqtt.rs:25-38 | a four-level topic whose first level is not the configured prefix is dropped |
| `Topics.DecodeRejectsForeignScope` | src/mqtt.rs:40-49 | a four-level topic under the prefix whose scope is not `control` is dropped |
| `Topics.MonitorTopicLevels` | src/lib.rs:62 | for `/`-free prefix, player name and event, the monitor topic splits into exactly prefix, `monitor`, player name, event |
| `Topics.MonitorTopicNeverDecodes` | src/mqtt.rs:15-49 | any monitor topic, whatever its prefix, player name and event, is rejected against the same prefix by the count, prefix or scope check |
| `Config.DefaultIsRustText` | src/lib.rs:20-29 | the default configuration's fields are well-formed UTF-8 |
| `Config.DefaultIsSingleLine` | src/lib.rs:20-29 | no field of the default configuration holds a newline, so its saved text has four lines |
| `Config.Parse` | src/lib.rs:164-193 | a text is accepted exactly when it is UTF-8, splits on `\n` into four lines, and its second line is `u16` text (optional `+`, digits below 65536); the accepted configuration is server = line 0, port = the value of line 1's digits, client name = line 2, prefix = line 3; rejection for the line count happens exactly when a UTF-8 text does not hold three newlines; accepted fields are UTF-8 and newline-free |
| `Config.ParseRejectsEmptyText` | src/lib.rs:173-178 | the empty text is rejected as malformed |
| `Config.SerializeIsUtf8` | src/lib.rs:204-209 | the saved text of a configuration is a Rust string |
| `Config.ParseSerialize` | src/lib.rs:173-207 | round trip: loading the saved text of a configuration with newline-free fields restores it exactly |
| `Config.ParseIsStable` | src/lib.rs:173-207 | saving a loaded configuration and loading the text again gives the same configuration |
| `Connection.Teardown` | src/mqtt.rs:135-164 | without a client nothing changes; afterwards no client is stored; under the slot invariant the invariant is kept, the previously live thread is joined, and no thread is left alive |
| `Connection.Setup` | src/mqtt.rs:85-103 | afterwards client and handle are stored; the client uses the configuration's client name, server and port; under the slot invariant the old thread is joined and exactly one fresh thread is alive |
| `Connection.TeardownIdempotent` | src/mqtt.rs:140-150 | a second teardown changes nothing |
| `Connection.TeardownJoinsOnce` | src/mqtt.rs:152-163 | teardown joins the live thread, which was not joined before |
| `Connection.SetupTearsDownFirst` | src/mqtt.rs:85-87 | setting up after a teardown is the same as setting up directly |
| `Connection.Run` | src/mqtt.rs:85-164 | after any sequence of setups and teardowns the slot invariant holds: client present iff handle present, and at most one thread alive |
| `Connection.RunThenTeardown` | src/lib.rs:152-157 | whatever happened before, a final teardown leaves an empty slot and no live thread |
| `Bridge.Init` | src/lib.rs:40-46 | the callback table is stored, nothing else changes |
| `Bridge.Configure` | src/lib.rs:144-150 | the default configuration replaces the stored one as a whole, followed by setup; the logs are untouched |
| `Bridge.LoadConfiguration` | src/lib.rs:161-196 | the state is unchanged if and only if the text is rejected; an accepted text replaces the configuration as a whole and is followed by setup |
| `Bridge.GetConfiguration` | src/lib.rs:198-210 | the returned text holds no NUL and, in every valid state, parses back to the stored configuration |
| `Bridge.Shutdown` | src/lib.rs:152-157 | only the slot changes; no client remains and no thread is left alive |
| `Bridge.Publish` | src/lib.rs:48-75 | nothing happens when nothing is configured (the corrected behaviour, see Findings), for a non-UTF-8 name, or without a client; otherwise exactly one at-least-once, non-retained request on the monitor topic of the configured prefix, name and event is added |
| `Bridge.OnPlayerEvent` | src/lib.rs:77-142 | only the publish log can change, by at most one appended request; events without an announcement, a missing configuration, non-UTF-8 names and a missing client change nothing |
| `Bridge.OnPlayerEventAsWritten` | src/lib.rs:48-50 | as the code is written, an announced event panics exactly when nothing is configured, and otherwise changes only the publish log |
| `Bridge.StartupEventPanicsAsWritten` | tests/startup_shutdown.rs:20-25 | as written, the first event of the start-up test (callbacks installed, no configuration, playing-state change) panics |
| `Bridge.AsWrittenAgreesOnceConfigured` | src/lib.rs:48-75 | once a configuration is stored, the code as written and the corrected model produce the same state for every event |
| `Bridge.UnconfiguredEventsChangeNothing` | tests/startup_shutdown.rs:24-32 | before any configuration, every player event is accepted and changes nothing |
| `Bridge.UnconfiguredEventsRun` | tests/startup_shutdown.rs:24-32 | before any configuration, any sequence of player events runs without a panic and leaves the state as it was |
| `Bridge.StartupEventsSurvive` | tests/startup_shutdown.rs:10-35 | the start-up test's eight events, after `mstarInit` and with no configuration, run without a panic, publish nothing, and leave `mstarShutdown` able to run |
| `Bridge.Route` | src/mqtt.rs:65-77 | exactly one callback is invoked, for the decoded command, with the decoded player name |
| `Bridge.HandleMessage` | src/mqtt.rs:12-82 | only the callback log can change; a topic without exactly three `/` changes nothing; any change is exactly one call, and the topic is then the control topic of that call's player and command under the configured prefix |
| `Bridge.LoadSavedConfiguration` | src/lib.rs:161-210 | in every valid state, loading the text `mstarGetConfiguration` returned keeps the configuration |
| `Bridge.LoadEmptyTextChangesNothing` | src/lib.rs:173-178 | an empty configuration text changes nothing: no clearing, no teardown |
| `Bridge.ConfigureConnectsToLocalBroker` | src/lib.rs:20-29 | `mstarConfigure` connects to `127.0.0.1:1883` as client `MStarPlayer` with prefix `MStarPlayer` |
| `Bridge.PlayingStateAnnounced` | src/lib.rs:78-83 | the playing-state handler publishes `playing` when playing and `stopped` otherwise, with an empty payload |
| `Bridge.NavigationAnnounced` | src/lib.rs:85-97 | the next- and previous-entry handlers publish `next` and `previous` with empty payloads |
| `Bridge.PositionAnnounced` | src/lib.rs:136-142 | the position handler publishes `position` with the rendered position as payload |
| `Bridge.MetadataEventsAreSilent` | src/lib.rs:99-134 | the playlist-entry, duration, entry-name and track-volume handlers change nothing, even unconfigured |
| `Bridge.AnnouncementIsOneLevel` | src/lib.rs:81-141 | every published event name is a single topic level |
| `Bridge.AnnouncedTopicLevels` | src/lib.rs:62 | for a `/`-free prefix and name, a subscriber sees the levels prefix, `monitor`, the name verbatim, and the event |
| `Bridge.OwnAnnouncementsInvokeNothing` | src/mqtt.rs:15-49 | a topic the plugin just published, fed back to `handle_message`, is dropped before the callback table is consulted and invokes no callback |
| `Bridge.DroppedTopicChangesNothing` | src/mqtt.rs:15-80 | a topic that fails to decode leaves the state unchanged |
| `Bridge.ControlTopicInvokesCallback` | src/mqtt.rs:62-77 | a control topic for a `/`-free, NUL-free player name invokes exactly the matching callback, once, with that name |
| `Bridge.UnknownCommandInvokesNothing` | src/mqtt.rs:78-80 | a well-shaped control topic with an unknown command invokes no callback |
| `Bridge.NulPlayerNameInvokesNothing` | src/mqtt.rs:51-60 | a control topic whose player name holds NUL is dropped before the callback table is consulted |
| `Bridge.ForeignTopicInvokesNothing` | src/mqtt.rs:25-49 | a four-level topic under another prefix or in another scope invokes no callback |
| `Bridge.StepKeepsValid` | src/lib.rs:40-196 | every entry point keeps the state invariant: slot invariant, a UTF-8 and newline-free configuration, and a live client only when configured and opened with the stored configuration |
| `Bridge.Run` | src/mqtt.rs:85-164 | after any feasible sequence of entry-point calls the invariant holds; a client is stored iff its handle is, and at most one network-loop thread is alive |
| `Bridge.StartIsValid` | src/lib.rs:31-33 | the initial state (nothing configured, no callbacks, no connection) satisfies the invariant |

## Findings

| source | as written | input that shows it | evidently intended | confidence | as-written member | corrected member |
|---|---|---|---|---|---|---|
| src/lib.rs:49-50 | `publish` reads `CONFIG` with `expect`, so `mstarPlayingStateChanged`, `mstarNextEntrySelected`, `mstarPreviousEntrySelected` and `mstarPositionChanged` panic before any configuration is stored | tests/startup_shutdown.rs:20-25: `mstarInit`, then `mstarPlayingStateChanged("", true)` with no configuration | the test's comment at tests/startup_shutdown.rs:24 says these calls must not crash; the event is dropped, as it already is when no client is stored (`Bridge.UnconfiguredEventsChangeNothing`, `Bridge.StartupEventsSurvive`; the as-written panic is exhibited by `Bridge.StartupEventPanicsAsWritten`) | not executed | `Bridge.OnPlayerEventAsWritten` | `Bridge.Publish` |

## Left out

- The network-loop thread body is not modelled, because it is I/O and concurrency inside rumqttc, a library not part of this model. That covers the subscribe to `<prefix>/control/#`, the event iteration, the one-second reconnect sleep and `eventloop.clean()` (src/mqtt.rs:103-131). A spawned thread is only an identifier.
- The locks (`RwLock`, `Mutex`) are not modelled: every entry point is one atomic step on one state record.
- The FFI boundary is not modelled (raw pointers, `CStr::from_ptr`, `CString::into_raw`/`from_raw`, `mstarFreeConfigurationText`). Names and texts are byte sequences, and a C string never holds NUL.
- The position payload is not computed: `f64::to_string` is floating-point formatting, so the handler takes the rendered text as a parameter. The `f64` arguments of the silent handlers are dropped, because the code ignores them.
- Errors returned by `client.publish`, `client.disconnect` and `JoinHandle::join` are not modelled: the code only logs them. The model records publish requests handed to the client, not broker delivery.
- Logging and `env_logger`, `mstarPluginVersion`, and the host callbacks the plugin never calls (`listPlayers`, `listTracks`, `setTrackVolume`) are not modelled.
