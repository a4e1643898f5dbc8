/**
 * The plugin as one sequential state record: the stored configuration
 * (`CONFIG`), whether the host's callback table is stored (`INIT`), the
 * connection slot (`CLIENT`, `JOIN_HANDLE`), and two logs of what left the
 * plugin: the publish requests handed to the MQTT client, and the host
 * callbacks invoked for inbound commands.
 */
module Bridge {
  import opened Wrappers
  import opened Utf8
  import opened StrSplit
  import opened Decimal
  import opened Topics
  import opened Config
  import opened Connection

  /** One invocation of the host's `play`, `stop`, `next` or `previous` callback. */
  datatype Call = Call(command: Command, playerName: Bytes)

  datatype QoS = AtMostOnce | AtLeastOnce

  /** One `client.publish(topic, qos, retain, payload)` handed to the client of network-loop thread `thread`. */
  datatype PublishRequest = PublishRequest(thread: ThreadId, topic: Bytes, qos: QoS, retain: bool, payload: Bytes)

  datatype State = State(
    config: Option<Configuration>,
    callbacksInstalled: bool,
    slot: Slot,
    requests: seq<PublishRequest>,
    calls: seq<Call>)

  /** Process start: nothing configured, no callbacks, no connection. */
  const START: State := State(None, false, EMPTY, [], [])

  /** The stored client was opened with the options of configuration `c`. */
  predicate OpenedWith(session: Session, c: Configuration) {
    session.clientId == c.clientName && session.host == c.server && session.port == c.port
  }

  /**
   * The state invariant: the slot invariant holds, the stored configuration
   * is made of newline-free Rust strings (it is the default or the lines of
   * a split), and a live client exists only once configured, opened with the
   * configuration now stored.
   */
  predicate Valid(p: State) {
    && Connection.Valid(p.slot)
    && (p.config.Some? ==> IsRustText(p.config.value) && IsSingleLine(p.config.value))
    && (p.slot.client.Some? ==> p.config.Some? && OpenedWith(p.slot.client.value, p.config.value))
  }

  /** `mstarInit`: store the host's callback table. */
  function Init(p: State): (r: State)
    ensures r.callbacksInstalled
    ensures r.(callbacksInstalled := p.callbacksInstalled) == p
  {
    p.(callbacksInstalled := true)
  }

  /** `mstarConfigure`: store the default configuration as a whole, then set the connection up. */
  function Configure(p: State): (r: State)
    requires HandleStoredWithClient(p.slot)
    ensures r.config == Some(DEFAULT)
    ensures r.slot == Setup(p.slot, DEFAULT)
    ensures r.callbacksInstalled == p.callbacksInstalled && r.requests == p.requests && r.calls == p.calls
  {
    p.(config := Some(DEFAULT), slot := Setup(p.slot, DEFAULT))
  }

  /**
   * `mstarLoadConfiguration`: a rejected text changes nothing at all (the
   * stored configuration stays and `setup` is not called); an accepted one
   * replaces the configuration as a whole and is followed by `setup`.
   */
  function LoadConfiguration(p: State, text: Bytes): (r: State)
    requires HandleStoredWithClient(p.slot)
    ensures r == p <==> Parse(text).Failure?
    ensures Parse(text).Success? ==>
      && r.config == Some(Parse(text).value)
      && r.slot == Setup(p.slot, Parse(text).value)
      && r.callbacksInstalled == p.callbacksInstalled && r.requests == p.requests && r.calls == p.calls
  {
    match Parse(text)
    case Failure(_) => p
    case Success(c) => p.(config := Some(c), slot := Setup(p.slot, c))
  }

  /** No text field holds a NUL byte, so the saved text is a valid C string. */
  predicate HasNoNul(c: Configuration) {
    NUL !in c.server && NUL !in c.clientName && NUL !in c.topicPrefix
  }

  /**
   * `mstarGetConfiguration`: the four-line text of the stored configuration.
   * `CString::new(..).unwrap()` demands that it hold no NUL byte.
   */
  function GetConfiguration(p: State): (text: Bytes)
    requires p.config.Some? && HasNoNul(p.config.value)
    ensures NUL !in text
    ensures Valid(p) ==> Parse(text) == Success(p.config.value)
  {
    var c := p.config.value;
    FormatIsPlainText(c.port);
    assert Valid(p) ==> Parse(Serialize(c)) == Success(c) by {
      if Valid(p) {
        ParseSerialize(c);
      }
    }
    Serialize(c)
  }

  /** `mstarShutdown`: tear the connection down. */
  function Shutdown(p: State): (r: State)
    requires HandleStoredWithClient(p.slot)
    ensures r.(slot := p.slot) == p
    ensures r.slot.client.None? && (Connection.Valid(p.slot) ==> Live(r.slot) == {})
  {
    p.(slot := Teardown(p.slot))
  }

  /**
   * `publish`, as its callers intend it: drop the event when nothing is
   * configured yet, when the player name is not UTF-8 or when no client is
   * stored; otherwise hand the client an at-least-once, non-retained publish
   * on the monitor topic. A failing `client.publish` is only logged. The code
   * itself panics when nothing is configured; `OnPlayerEventAsWritten`
   * models that.
   */
  function Publish(p: State, rawName: Bytes, event: Bytes, payload: Bytes): (r: State)
    ensures r.(requests := p.requests) == p
    ensures p.config.None? || !IsUtf8(rawName) || p.slot.client.None? ==> r == p
    ensures p.config.Some? && IsUtf8(rawName) && p.slot.client.Some? ==> r.requests == p.requests + [
      PublishRequest(p.slot.client.value.thread,
        MonitorTopic(p.config.value.topicPrefix, rawName, event), AtLeastOnce, false, payload)]
  {
    if p.config.None? || !IsUtf8(rawName) then p
    else
      var topic := MonitorTopic(p.config.value.topicPrefix, rawName, event);
      match p.slot.client
      case None => p
      case Some(session) =>
        p.(requests := p.requests + [PublishRequest(session.thread, topic, AtLeastOnce, false, payload)])
  }

  /** The player events the host reports through the plugin's `mstar...` entry points. */
  datatype PlayerEvent =
    | PlayingStateChanged(isPlaying: bool)
    | NextEntrySelected
    | PreviousEntrySelected
    | PlaylistEntrySelected(playlistIndex: int, entryName: Bytes)
    | PlaylistEntryDurationChanged(playlistIndex: int)
    | PlaylistEntryNameChanged(playlistIndex: int, entryName: Bytes)
    | TrackVolumeChanged(trackName: Bytes)
    /** `positionText` stands for `position.to_string()` of the `f64` position. */
    | PositionChanged(positionText: Bytes)

  /** The last level of a monitor topic and the payload published with it. */
  datatype Announcement = Announcement(event: Bytes, payload: Bytes)

  const PLAYING: Bytes := Ascii("playing")
  const STOPPED: Bytes := Ascii("stopped")
  const NEXT: Bytes := Ascii("next")
  const PREVIOUS: Bytes := Ascii("previous")
  const POSITION: Bytes := Ascii("position")

  /** What an event is published as, or `None` for the events that publish nothing. */
  function AnnouncementOf(e: PlayerEvent): Option<Announcement> {
    match e
    case PlayingStateChanged(isPlaying) => Some(Announcement(if isPlaying then PLAYING else STOPPED, []))
    case NextEntrySelected => Some(Announcement(NEXT, []))
    case PreviousEntrySelected => Some(Announcement(PREVIOUS, []))
    case PositionChanged(text) => Some(Announcement(POSITION, text))
    case _ => None
  }

  /** Event names are single topic levels. */
  lemma AnnouncementIsOneLevel(e: PlayerEvent)
    requires AnnouncementOf(e).Some?
    ensures SLASH !in AnnouncementOf(e).value.event
  {
  }

  /** The entry point for `e`: publish its announcement, if it has one. Only publishing reads `CONFIG`. */
  function OnPlayerEvent(p: State, rawName: Bytes, e: PlayerEvent): (r: State)
    ensures r.(requests := p.requests) == p
    ensures r.requests == p.requests || (|r.requests| == |p.requests| + 1 && r.requests[..|p.requests|] == p.requests)
    ensures AnnouncementOf(e).None? || p.config.None? || !IsUtf8(rawName) || p.slot.client.None? ==> r == p
  {
    match AnnouncementOf(e)
    case None => p
    case Some(a) => Publish(p, rawName, a.event, a.payload)
  }

  /**
   * The entry point for `e` as the code is written: `publish` reads `CONFIG`
   * with `expect` before anything else, so an announced event arriving
   * before any configuration panics. `None` stands for that panic.
   */
  function OnPlayerEventAsWritten(p: State, rawName: Bytes, e: PlayerEvent): (r: Option<State>)
    ensures r.None? <==> AnnouncementOf(e).Some? && p.config.None?
    ensures r.Some? ==> r.value.(requests := p.requests) == p
  {
    match AnnouncementOf(e)
    case None => Some(p)
    case Some(a) => if p.config.None? then None else Some(Publish(p, rawName, a.event, a.payload))
  }

  /**
   * The start-up sequence of the repository's own start-up test (the host's
   * callbacks installed, then a playing-state change for an empty player
   * name, with no configuration) panics as the code is written, although
   * that test requires the entry points not to crash.
   */
  lemma StartupEventPanicsAsWritten()
    ensures OnPlayerEventAsWritten(Init(START), [], PlayingStateChanged(true)).None?
  {
  }

  /** Once configured, the code as written and the model agree on every event. */
  lemma AsWrittenAgreesOnceConfigured(p: State, rawName: Bytes, e: PlayerEvent)
    requires p.config.Some?
    ensures OnPlayerEventAsWritten(p, rawName, e) == Some(OnPlayerEvent(p, rawName, e))
  {
  }

  /** Before any configuration, every player event is accepted and changes nothing. */
  lemma UnconfiguredEventsChangeNothing(p: State, rawName: Bytes, e: PlayerEvent)
    requires p.config.None?
    ensures Enabled(p, EventCall(rawName, e))
    ensures OnPlayerEvent(p, rawName, e) == p
  {
  }

  /** The callback a decoded command selects, invoked with the player name. */
  function Route(calls: seq<Call>, message: ControlMessage): (r: seq<Call>)
    ensures |r| == |calls| + 1 && r[..|calls|] == calls
    ensures r[|calls|].command == message.command && r[|calls|].playerName == message.playerName
  {
    calls + [Call(message.command, message.playerName)]
  }

  /** The checks that pass before `handle_message` reads `INIT`: all but the command's. */
  predicate ReachesDispatch(topic: Bytes, prefix: Bytes) {
    var d := Decode(topic, prefix);
    d.Success? || d.error == UnknownCommand
  }

  /**
   * `handle_message`: decode the topic against the configured prefix and,
   * when it names one of the four commands, invoke exactly that callback.
   * `CONFIG` is read only for four-level topics and `INIT` only after the
   * player name passed.
   */
  function HandleMessage(p: State, topic: Bytes): (r: State)
    requires multiset(topic)[SLASH] == 3 ==> p.config.Some?
    requires p.config.Some? && ReachesDispatch(topic, p.config.value.topicPrefix) ==> p.callbacksInstalled
    ensures r.(calls := p.calls) == p
    ensures multiset(topic)[SLASH] != 3 ==> r == p
    ensures r != p ==>
      && p.config.Some?
      && |r.calls| == |p.calls| + 1 && r.calls[..|p.calls|] == p.calls
      && topic == ControlTopic(p.config.value.topicPrefix, r.calls[|p.calls|].playerName, r.calls[|p.calls|].command)
  {
    if multiset(topic)[SLASH] != 3 then p
    else match Decode(topic, p.config.value.topicPrefix)
      case Failure(_) => p
      case Success(message) => p.(calls := Route(p.calls, message))
  }

  /** Round trip through the host: loading the text `mstarGetConfiguration` returned keeps the configuration. */
  lemma LoadSavedConfiguration(p: State)
    requires Valid(p) && p.config.Some? && HasNoNul(p.config.value)
    ensures LoadConfiguration(p, GetConfiguration(p)).config == p.config
  {
  }

  /** An empty configuration text neither clears the configuration nor touches the connection. */
  lemma LoadEmptyTextChangesNothing(p: State)
    requires HandleStoredWithClient(p.slot)
    ensures LoadConfiguration(p, []) == p
  {
    ParseRejectsEmptyText();
  }

  /** `mstarConfigure` connects to the local broker on port 1883 as client `MStarPlayer`. */
  lemma ConfigureConnectsToLocalBroker(p: State)
    requires HandleStoredWithClient(p.slot)
    ensures Configure(p).slot.client.Some?
    ensures Configure(p).slot.client.value.host == Ascii("127.0.0.1")
    ensures Configure(p).slot.client.value.port == 1883
    ensures Configure(p).slot.client.value.clientId == Ascii("MStarPlayer")
    ensures Configure(p).config.value.topicPrefix == Ascii("MStarPlayer")
  {
  }

  /** The playing-state entry point publishes `playing` or `stopped`, with an empty payload. */
  lemma PlayingStateAnnounced(p: State, rawName: Bytes, isPlaying: bool)
    requires p.config.Some? && IsUtf8(rawName) && p.slot.client.Some?
    ensures OnPlayerEvent(p, rawName, PlayingStateChanged(isPlaying)).requests == p.requests + [
      PublishRequest(p.slot.client.value.thread,
        MonitorTopic(p.config.value.topicPrefix, rawName, if isPlaying then Ascii("playing") else Ascii("stopped")),
        AtLeastOnce, false, [])]
  {
  }

  /** The next- and previous-entry entry points publish `next` and `previous`, with empty payloads. */
  lemma NavigationAnnounced(p: State, rawName: Bytes)
    requires p.config.Some? && IsUtf8(rawName) && p.slot.client.Some?
    ensures OnPlayerEvent(p, rawName, NextEntrySelected).requests == p.requests + [
      PublishRequest(p.slot.client.value.thread,
        MonitorTopic(p.config.value.topicPrefix, rawName, Ascii("next")), AtLeastOnce, false, [])]
    ensures OnPlayerEvent(p, rawName, PreviousEntrySelected).requests == p.requests + [
      PublishRequest(p.slot.client.value.thread,
        MonitorTopic(p.config.value.topicPrefix, rawName, Ascii("previous")), AtLeastOnce, false, [])]
  {
  }

  /** The position entry point publishes `position` with the rendered position as payload. */
  lemma PositionAnnounced(p: State, rawName: Bytes, positionText: Bytes)
    requires p.config.Some? && IsUtf8(rawName) && p.slot.client.Some?
    ensures OnPlayerEvent(p, rawName, PositionChanged(positionText)).requests == p.requests + [
      PublishRequest(p.slot.client.value.thread,
        MonitorTopic(p.config.value.topicPrefix, rawName, Ascii("position")), AtLeastOnce, false, positionText)]
  {
  }

  /**
   * The playlist-entry, duration, entry-name and track-volume entry points
   * publish nothing and change nothing, configured or not.
   */
  lemma MetadataEventsAreSilent(p: State, rawName: Bytes, e: PlayerEvent)
    requires e.PlaylistEntrySelected? || e.PlaylistEntryDurationChanged?
          || e.PlaylistEntryNameChanged? || e.TrackVolumeChanged?
    ensures OnPlayerEvent(p, rawName, e) == p
  {
  }

  /**
   * What a subscriber to `<prefix>/monitor/#` sees for a `/`-free prefix and
   * player name: a topic whose four levels are the prefix, `monitor`, the
   * player name verbatim, and the event name.
   */
  lemma AnnouncedTopicLevels(p: State, rawName: Bytes, e: PlayerEvent)
    requires p.config.Some? && IsUtf8(rawName) && p.slot.client.Some? && AnnouncementOf(e).Some?
    requires SLASH !in p.config.value.topicPrefix && SLASH !in rawName
    ensures var r := OnPlayerEvent(p, rawName, e);
      && |r.requests| == |p.requests| + 1
      && Split(r.requests[|p.requests|].topic, SLASH)
         == [p.config.value.topicPrefix, Ascii("monitor"), rawName, AnnouncementOf(e).value.event]
  {
    var a := AnnouncementOf(e).value;
    AnnouncementIsOneLevel(e);
    var r := OnPlayerEvent(p, rawName, e);
    assert r == Publish(p, rawName, a.event, a.payload);
    assert r.requests[|p.requests|].topic == MonitorTopic(p.config.value.topicPrefix, rawName, a.event);
    MonitorTopicLevels(p.config.value.topicPrefix, rawName, a.event);
  }

  /**
   * The plugin never commands a player with its own announcements: when the
   * topic it just published comes back on the subscription, no callback is
   * invoked, whatever the prefix, player name or event.
   */
  lemma OwnAnnouncementsInvokeNothing(p: State, rawName: Bytes, e: PlayerEvent)
    requires p.config.Some? && IsUtf8(rawName) && p.slot.client.Some? && AnnouncementOf(e).Some?
    ensures var r := OnPlayerEvent(p, rawName, e);
      && |r.requests| == |p.requests| + 1
      && !ReachesDispatch(r.requests[|p.requests|].topic, r.config.value.topicPrefix)
      && HandleMessage(r, r.requests[|p.requests|].topic) == r
  {
    var a := AnnouncementOf(e).value;
    var prefix := p.config.value.topicPrefix;
    var topic := MonitorTopic(prefix, rawName, a.event);
    var r := OnPlayerEvent(p, rawName, e);
    assert r == Publish(p, rawName, a.event, a.payload);
    assert r.requests[|p.requests|].topic == topic;
    MonitorTopicNeverDecodes(prefix, rawName, a.event);
    DroppedTopicChangesNothing(r, topic);
  }

  /** A topic that fails to decode leaves the state as it was. */
  lemma DroppedTopicChangesNothing(p: State, topic: Bytes)
    requires p.config.Some? && Decode(topic, p.config.value.topicPrefix).Failure?
    requires ReachesDispatch(topic, p.config.value.topicPrefix) ==> p.callbacksInstalled
    ensures HandleMessage(p, topic) == p
  {
  }

  /** A control topic for a `/`-free, NUL-free player name invokes exactly the matching callback, once. */
  lemma ControlTopicInvokesCallback(p: State, playerName: Bytes, command: Command)
    requires p.config.Some? && p.callbacksInstalled
    requires SLASH !in p.config.value.topicPrefix && SLASH !in playerName && NUL !in playerName
    ensures HandleMessage(p, ControlTopic(p.config.value.topicPrefix, playerName, command)).calls
      == p.calls + [Call(command, playerName)]
  {
    DecodeControlTopic(p.config.value.topicPrefix, playerName, command);
  }

  /** A well-shaped control topic with an unknown command invokes no callback. */
  lemma UnknownCommandInvokesNothing(p: State, playerName: Bytes, commandText: Bytes)
    requires p.config.Some? && p.callbacksInstalled
    requires SLASH !in p.config.value.topicPrefix && SLASH !in playerName && NUL !in playerName
    requires SLASH !in commandText && forall c: Command :: commandText != CommandText(c)
    ensures var topic := p.config.value.topicPrefix + [SLASH] + CONTROL + [SLASH] + playerName + [SLASH] + commandText;
      HandleMessage(p, topic) == p
  {
    var prefix := p.config.value.topicPrefix;
    var topic := prefix + [SLASH] + CONTROL + [SLASH] + playerName + [SLASH] + commandText;
    ScopesAreOneLevel();
    SplitFourLevels(prefix, CONTROL, playerName, commandText);
    DecodeRejectsUnknownCommand(topic, prefix);
  }

  /** A control topic whose player name holds a NUL byte invokes no callback, and `INIT` is not needed. */
  lemma NulPlayerNameInvokesNothing(p: State, playerName: Bytes, commandText: Bytes)
    requires p.config.Some?
    requires SLASH !in p.config.value.topicPrefix && SLASH !in playerName && SLASH !in commandText
    requires NUL in playerName
    ensures var topic := p.config.value.topicPrefix + [SLASH] + CONTROL + [SLASH] + playerName + [SLASH] + commandText;
      !ReachesDispatch(topic, p.config.value.topicPrefix) && HandleMessage(p, topic) == p
  {
    var prefix := p.config.value.topicPrefix;
    var topic := prefix + [SLASH] + CONTROL + [SLASH] + playerName + [SLASH] + commandText;
    ScopesAreOneLevel();
    SplitFourLevels(prefix, CONTROL, playerName, commandText);
    DecodeRejectsNul(topic, prefix);
    DroppedTopicChangesNothing(p, topic);
  }

  /** A four-level topic under another prefix, or in another scope than `control`, invokes no callback. */
  lemma ForeignTopicInvokesNothing(p: State, topic: Bytes)
    requires p.config.Some? && |Split(topic, SLASH)| == 4
    requires Split(topic, SLASH)[0] != p.config.value.topicPrefix || Split(topic, SLASH)[1] != CONTROL
    ensures HandleMessage(p, topic) == p
  {
  }

  /** One call into the plugin, by the host or by the network-loop thread. */
  datatype Step =
    | InitCall
    | ConfigureCall
    | LoadCall(text: Bytes)
    | ShutdownCall
    | EventCall(rawName: Bytes, event: PlayerEvent)
    | MessageCall(topic: Bytes)

  /** The step does not run into one of the plugin's `expect`s. */
  predicate Enabled(p: State, step: Step) {
    match step
    case InitCall => true
    case ConfigureCall => HandleStoredWithClient(p.slot)
    case LoadCall(_) => HandleStoredWithClient(p.slot)
    case ShutdownCall => HandleStoredWithClient(p.slot)
    case EventCall(_, _) => true
    case MessageCall(topic) =>
      && (multiset(topic)[SLASH] == 3 ==> p.config.Some?)
      && (p.config.Some? && ReachesDispatch(topic, p.config.value.topicPrefix) ==> p.callbacksInstalled)
  }

  function Apply(p: State, step: Step): State
    requires Enabled(p, step)
  {
    match step
    case InitCall => Init(p)
    case ConfigureCall => Configure(p)
    case LoadCall(text) => LoadConfiguration(p, text)
    case ShutdownCall => Shutdown(p)
    case EventCall(rawName, e) => OnPlayerEvent(p, rawName, e)
    case MessageCall(topic) => HandleMessage(p, topic)
  }

  /** Every step keeps the state invariant. */
  lemma StepKeepsValid(p: State, step: Step)
    requires Valid(p) && Enabled(p, step)
    ensures Valid(Apply(p, step))
  {
    DefaultIsRustText();
    DefaultIsSingleLine();
  }

  /** The steps can run one after another without hitting an `expect`. */
  predicate Feasible(p: State, steps: seq<Step>)
    decreases |steps|
  {
    |steps| == 0 || (Enabled(p, steps[0]) && Feasible(Apply(p, steps[0]), steps[1..]))
  }

  /**
   * The state after a feasible run: the invariant holds after every
   * operation, so a stored client always comes with its thread's handle, at
   * most one network-loop thread is alive, and it serves a client opened
   * with the stored configuration.
   */
  function Run(p: State, steps: seq<Step>): (r: State)
    requires Valid(p) && Feasible(p, steps)
    ensures Valid(r)
    ensures r.slot.client.Some? <==> r.slot.joinHandle.Some?
    ensures |Live(r.slot)| <= 1
    decreases |steps|
  {
    if |steps| == 0 then p
    else
      StepKeepsValid(p, steps[0]);
      Run(Apply(p, steps[0]), steps[1..])
  }

  /** Before any configuration, a run of player events is feasible and changes nothing. */
  lemma {:induction false} UnconfiguredEventsRun(p: State, steps: seq<Step>)
    requires Valid(p) && p.config.None?
    requires forall i | 0 <= i < |steps| :: steps[i].EventCall?
    ensures Feasible(p, steps) && Run(p, steps) == p
    decreases |steps|
  {
    if |steps| > 0 {
      UnconfiguredEventsChangeNothing(p, steps[0].rawName, steps[0].event);
      assert Apply(p, steps[0]) == p;
      UnconfiguredEventsRun(p, steps[1..]);
    }
  }

  /** The eight player events of the repository's start-up test, for an empty player name. */
  const STARTUP_EVENTS: seq<Step> := [
    EventCall([], PlayingStateChanged(true)),
    EventCall([], NextEntrySelected),
    EventCall([], PreviousEntrySelected),
    EventCall([], PlaylistEntrySelected(0, [])),
    EventCall([], PlaylistEntryDurationChanged(0)),
    EventCall([], PlaylistEntryNameChanged(0, [])),
    EventCall([], TrackVolumeChanged([])),
    EventCall([], PositionChanged(Ascii("0")))]

  /**
   * The start-up test passes in the model: after `mstarInit`, the eight
   * events run without a configuration, publish nothing, and leave a state
   * in which `mstarShutdown` can run.
   */
  lemma StartupEventsSurvive()
    ensures Feasible(Init(START), STARTUP_EVENTS)
    ensures Run(Init(START), STARTUP_EVENTS) == Init(START)
    ensures Enabled(Init(START), ShutdownCall)
  {
    UnconfiguredEventsRun(Init(START), STARTUP_EVENTS);
  }

  /** The starting state satisfies the invariant. */
  lemma StartIsValid()
    ensures Valid(START)
  {
  }
}
