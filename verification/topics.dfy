/**
 * The topic codec: composing outbound monitor topics and decoding inbound
 * control topics, `<prefix>/<scope>/<player-name>/<command-or-event>`.
 */
module Topics {
  import opened Wrappers
  import opened Utf8
  import opened StrSplit

  const CONTROL: Bytes := Ascii("control")
  const MONITOR: Bytes := Ascii("monitor")

  /** The four player commands a control topic can carry. */
  datatype Command = Play | Stop | Next | Previous

  /** The last level of a control topic that names `c`. */
  function CommandText(c: Command): Bytes {
    match c
    case Play => Ascii("play")
    case Stop => Ascii("stop")
    case Next => Ascii("next")
    case Previous => Ascii("previous")
  }

  /** The command a control topic's last level names, if any. */
  function ParseCommand(s: Bytes): (r: Option<Command>)
    ensures r.Some? ==> CommandText(r.value) == s
  {
    if s == CommandText(Play) then Some(Play)
    else if s == CommandText(Stop) then Some(Stop)
    else if s == CommandText(Next) then Some(Next)
    else if s == CommandText(Previous) then Some(Previous)
    else None
  }

  /** Each command text parses back to its command. */
  lemma ParseCommandText(c: Command)
    ensures ParseCommand(CommandText(c)) == Some(c)
  {
    assert CommandText(Play)[0] != CommandText(Stop)[0];
    assert CommandText(Next)[0] != CommandText(Previous)[0];
    assert CommandText(Play)[0] != CommandText(Next)[0];
    assert CommandText(Play)[1] != CommandText(Previous)[1];
    assert CommandText(Stop)[0] != CommandText(Next)[0];
    assert CommandText(Stop)[0] != CommandText(Previous)[0];
  }

  /** `format!("{prefix}/monitor/{player_name}/{event}")`: nothing is escaped. */
  function MonitorTopic(prefix: Bytes, playerName: Bytes, event: Bytes): Bytes {
    prefix + [SLASH] + MONITOR + [SLASH] + playerName + [SLASH] + event
  }

  /** The topic another client publishes to command player `playerName`. */
  function ControlTopic(prefix: Bytes, playerName: Bytes, command: Command): Bytes {
    prefix + [SLASH] + CONTROL + [SLASH] + playerName + [SLASH] + CommandText(command)
  }

  /** A decoded control message: whom to command, and how. */
  datatype ControlMessage = ControlMessage(playerName: Bytes, command: Command)

  /** Why `handle_message` dropped a topic; each reason is logged and nothing else happens. */
  datatype TopicError =
    | MalformedLevelCount
    | PrefixMismatch
    | UnexpectedScope
    | InvalidPlayerName
    | UnknownCommand

  /**
   * The checks `handle_message` makes, in its order: exactly four levels, the
   * configured prefix, the `control` scope, a player name that `CString::new`
   * accepts (no NUL byte), and one of the four command texts.
   */
  function Decode(topic: Bytes, prefix: Bytes): (r: Result<ControlMessage, TopicError>)
    ensures r == Failure(MalformedLevelCount) <==> multiset(topic)[SLASH] != 3
    ensures r.Success? ==>
      && topic == ControlTopic(prefix, r.value.playerName, r.value.command)
      && SLASH !in prefix && SLASH !in r.value.playerName && NUL !in r.value.playerName
  {
    var levels := Split(topic, SLASH);
    if |levels| != 4 then Failure(MalformedLevelCount)
    else if levels[0] != prefix then Failure(PrefixMismatch)
    else if levels[1] != CONTROL then Failure(UnexpectedScope)
    else if NUL in levels[2] then Failure(InvalidPlayerName)
    else match ParseCommand(levels[3])
      case None => Failure(UnknownCommand)
      case Some(c) =>
        assert topic == ControlTopic(prefix, levels[2], c) by {
          JoinSplit(topic, SLASH);
          JoinFour(levels, SLASH);
        }
        Success(ControlMessage(levels[2], c))
  }

  /** Four separator-free levels joined with `/` split back into exactly those levels. */
  lemma SplitFourLevels(a: Bytes, b: Bytes, c: Bytes, d: Bytes)
    requires SLASH !in a && SLASH !in b && SLASH !in c && SLASH !in d
    ensures Split(a + [SLASH] + b + [SLASH] + c + [SLASH] + d, SLASH) == [a, b, c, d]
  {
    var levels := [a, b, c, d];
    JoinFour(levels, SLASH);
    SplitJoin(levels, SLASH);
  }

  /** The scope names hold no `/`. */
  lemma ScopesAreOneLevel()
    ensures SLASH !in CONTROL && SLASH !in MONITOR
  {
    assert forall i :: 0 <= i < |CONTROL| ==> CONTROL[i] != SLASH;
    assert forall i :: 0 <= i < |MONITOR| ==> MONITOR[i] != SLASH;
  }

  /** The command texts hold no `/`. */
  lemma CommandTextIsOneLevel(c: Command)
    ensures SLASH !in CommandText(c)
  {
  }

  /**
   * Round trip: the control topic for a `/`-free prefix and a `/`-free,
   * NUL-free player name decodes, against that prefix, to exactly that player
   * and command.
   */
  lemma DecodeControlTopic(prefix: Bytes, playerName: Bytes, command: Command)
    requires SLASH !in prefix && SLASH !in playerName && NUL !in playerName
    ensures Decode(ControlTopic(prefix, playerName, command), prefix)
      == Success(ControlMessage(playerName, command))
  {
    CommandTextIsOneLevel(command);
    ScopesAreOneLevel();
    SplitFourLevels(prefix, CONTROL, playerName, CommandText(command));
    DecodeNamedCommand(ControlTopic(prefix, playerName, command), prefix, playerName, command);
  }

  lemma DecodeNamedCommand(topic: Bytes, prefix: Bytes, playerName: Bytes, command: Command)
    requires Split(topic, SLASH) == [prefix, CONTROL, playerName, CommandText(command)]
    requires NUL !in playerName
    ensures Decode(topic, prefix) == Success(ControlMessage(playerName, command))
  {
    ParseCommandText(command);
  }

  /** A topic decodes to a message exactly when it is that message's control topic with well-formed levels. */
  lemma DecodeSucceedsExactly(topic: Bytes, prefix: Bytes, message: ControlMessage)
    ensures Decode(topic, prefix) == Success(message) <==>
      && topic == ControlTopic(prefix, message.playerName, message.command)
      && SLASH !in prefix && SLASH !in message.playerName && NUL !in message.playerName
  {
    if topic == ControlTopic(prefix, message.playerName, message.command)
      && SLASH !in prefix && SLASH !in message.playerName && NUL !in message.playerName
    {
      DecodeControlTopic(prefix, message.playerName, message.command);
    }
  }

  /** A four-level control topic under the prefix whose player name holds a NUL byte is dropped. */
  lemma DecodeRejectsNul(topic: Bytes, prefix: Bytes)
    requires |Split(topic, SLASH)| == 4 && Split(topic, SLASH)[0] == prefix && Split(topic, SLASH)[1] == CONTROL
    requires NUL in Split(topic, SLASH)[2]
    ensures Decode(topic, prefix) == Failure(InvalidPlayerName)
  {
  }

  /** A four-level control topic under the prefix whose last level is not one of the four commands is dropped. */
  lemma DecodeRejectsUnknownCommand(topic: Bytes, prefix: Bytes)
    requires |Split(topic, SLASH)| == 4 && Split(topic, SLASH)[0] == prefix && Split(topic, SLASH)[1] == CONTROL
    requires NUL !in Split(topic, SLASH)[2]
    requires forall c: Command :: Split(topic, SLASH)[3] != CommandText(c)
    ensures Decode(topic, prefix) == Failure(UnknownCommand)
  {
  }

  /** A four-level topic whose first level is not the configured prefix is dropped. */
  lemma DecodeRejectsForeignPrefix(topic: Bytes, prefix: Bytes)
    requires |Split(topic, SLASH)| == 4 && Split(topic, SLASH)[0] != prefix
    ensures Decode(topic, prefix) == Failure(PrefixMismatch)
  {
  }

  /** A four-level topic under the configured prefix whose scope is not `control` is dropped. */
  lemma DecodeRejectsForeignScope(topic: Bytes, prefix: Bytes)
    requires |Split(topic, SLASH)| == 4 && Split(topic, SLASH)[0] == prefix
    requires Split(topic, SLASH)[1] != CONTROL
    ensures Decode(topic, prefix) == Failure(UnexpectedScope)
  {
  }

  /**
   * For `/`-free levels the monitor topic splits into exactly the prefix,
   * `monitor`, the player name and the event.
   */
  lemma MonitorTopicLevels(prefix: Bytes, playerName: Bytes, event: Bytes)
    requires SLASH !in prefix && SLASH !in playerName && SLASH !in event
    ensures Split(MonitorTopic(prefix, playerName, event), SLASH) == [prefix, MONITOR, playerName, event]
  {
    ScopesAreOneLevel();
    SplitFourLevels(prefix, MONITOR, playerName, event);
  }

  /** The first two levels of `a/b/rest` for a `/`-free `b`: where `a` ends, and `b` after a `/`-free `a`. */
  lemma LeadingLevels(a: Bytes, b: Bytes, rest: Bytes)
    requires SLASH !in b
    ensures |Split(a + [SLASH] + (b + [SLASH] + rest), SLASH)| >= 2
    ensures Split(a + [SLASH] + (b + [SLASH] + rest), SLASH)[0] == Split(a, SLASH)[0]
    ensures SLASH !in a ==> Split(a + [SLASH] + (b + [SLASH] + rest), SLASH)[1] == b
  {
    SplitAround(a, SLASH, b + [SLASH] + rest);
    SplitAround(b, SLASH, rest);
    SplitWithoutSeparator(b, SLASH);
    if SLASH !in a {
      SplitWithoutSeparator(a, SLASH);
    }
  }

  /** The first two levels of a monitor topic: where the prefix ends, and `monitor` after a `/`-free prefix. */
  lemma MonitorTopicLeadingLevels(prefix: Bytes, playerName: Bytes, event: Bytes)
    ensures |Split(MonitorTopic(prefix, playerName, event), SLASH)| >= 2
    ensures Split(MonitorTopic(prefix, playerName, event), SLASH)[0] == Split(prefix, SLASH)[0]
    ensures SLASH !in prefix ==> Split(MonitorTopic(prefix, playerName, event), SLASH)[1] == MONITOR
  {
    var tail := playerName + [SLASH] + event;
    assert MonitorTopic(prefix, playerName, event) == prefix + [SLASH] + (MONITOR + [SLASH] + tail);
    LeadingLevels(prefix, MONITOR, tail);
  }

  /**
   * The plugin never commands itself: a topic it publishes, decoded against
   * the same prefix, is always dropped, whatever the prefix, player name or
   * event, and it is dropped before its player name or command is looked at.
   * Either the first level is not the whole prefix (the prefix holds a `/`) or
   * the scope level is `monitor`.
   */
  lemma MonitorTopicNeverDecodes(prefix: Bytes, playerName: Bytes, event: Bytes)
    ensures var d := Decode(MonitorTopic(prefix, playerName, event), prefix);
      d.Failure? && (d.error.MalformedLevelCount? || d.error.PrefixMismatch? || d.error.UnexpectedScope?)
  {
    var levels := Split(MonitorTopic(prefix, playerName, event), SLASH);
    MonitorTopicLeadingLevels(prefix, playerName, event);
    FirstSegmentIsPrefix(prefix, SLASH);
    if SLASH in prefix {
      assert levels[0] != prefix;
    } else {
      SplitWithoutSeparator(prefix, SLASH);
      assert MONITOR[0] != CONTROL[0];
      assert levels[1] != CONTROL;
    }
  }
}
