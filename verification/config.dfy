/**
 * The plugin configuration and its four-line text form: the text
 * `mstarGetConfiguration` produces and `mstarLoadConfiguration` consumes.
 */
module Config {
  import opened Wrappers
  import opened Utf8
  import opened StrSplit
  import opened Decimal

  /** Broker address and port, MQTT client identifier, and topic prefix. */
  datatype Configuration = Configuration(
    server: Bytes,
    port: u16,
    clientName: Bytes,
    topicPrefix: Bytes)

  /** The text fields are Rust `String`s, so well-formed UTF-8. */
  predicate IsRustText(c: Configuration) {
    IsUtf8(c.server) && IsUtf8(c.clientName) && IsUtf8(c.topicPrefix)
  }

  /** No text field holds the line separator, so the four-line form cannot be misread. */
  predicate IsSingleLine(c: Configuration) {
    NEWLINE !in c.server && NEWLINE !in c.clientName && NEWLINE !in c.topicPrefix
  }

  /** `Configuration::default()`: a local broker on the standard MQTT port. */
  const DEFAULT: Configuration :=
    Configuration(Ascii("127.0.0.1"), 1883, Ascii("MStarPlayer"), Ascii("MStarPlayer"))

  /** The default configuration is made of Rust strings. */
  lemma DefaultIsRustText()
    ensures IsRustText(DEFAULT)
  {
    AsciiIsUtf8(DEFAULT.server);
    AsciiIsUtf8(DEFAULT.clientName);
  }

  /** The default configuration fits the four-line form. */
  lemma DefaultIsSingleLine()
    ensures IsSingleLine(DEFAULT)
  {
  }

  /** Why a configuration text was rejected; each reason is logged and nothing changes. */
  datatype ConfigError = NotUtf8 | MalformedLineCount | MalformedPort

  /** `format!("{}\n{}\n{}\n{}", server, port, client_name, topic_prefix)`. */
  function Serialize(c: Configuration): Bytes {
    c.server + [NEWLINE] + Format(c.port) + [NEWLINE] + c.clientName + [NEWLINE] + c.topicPrefix
  }

  /**
   * The checks `mstarLoadConfiguration` makes before it replaces the stored
   * configuration: the text is UTF-8, it splits on `\n` into exactly four
   * lines, and the second line parses as a `u16`. The configuration it then
   * stores takes its fields from the lines in order.
   */
  function Parse(text: Bytes): (r: Result<Configuration, ConfigError>)
    ensures r == Failure(MalformedLineCount) <==> IsUtf8(text) && multiset(text)[NEWLINE] != 3
    ensures r.Success? <==>
      IsUtf8(text) && |Split(text, NEWLINE)| == 4 && IsU16Text(Split(text, NEWLINE)[1])
    ensures r.Success? ==>
      var lines := Split(text, NEWLINE);
      && r.value.server == lines[0]
      && r.value.port == DigitsValue(Unsigned(lines[1]))
      && r.value.clientName == lines[2]
      && r.value.topicPrefix == lines[3]
    ensures r.Success? ==> IsRustText(r.value) && IsSingleLine(r.value)
  {
    if !IsUtf8(text) then Failure(NotUtf8)
    else
      var lines := Split(text, NEWLINE);
      if |lines| != 4 then Failure(MalformedLineCount)
      else
        ParseU16Meaning(lines[1]);
        match ParseU16(lines[1])
        case None => Failure(MalformedPort)
        case Some(port) =>
          SplitKeepsUtf8(text, NEWLINE);
          Success(Configuration(lines[0], port, lines[2], lines[3]))
  }

  /** The empty text is one empty line, not four, so it is rejected. */
  lemma ParseRejectsEmptyText()
    ensures Parse([]) == Failure(MalformedLineCount)
  {
    var empty: Bytes := [];
    assert multiset(empty)[NEWLINE] == 0;
  }

  /** The saved text of a configuration is itself a Rust string. */
  lemma SerializeIsUtf8(c: Configuration)
    requires IsRustText(c)
    ensures IsUtf8(Serialize(c))
  {
    var nl: Bytes := [NEWLINE];
    assert IsAscii(nl);
    AsciiIsUtf8(nl);
    FormatIsPlainText(c.port);
    ConcatIsUtf8(c.server, nl);
    ConcatIsUtf8(c.server + nl, Format(c.port));
    ConcatIsUtf8(c.server + nl + Format(c.port), nl);
    ConcatIsUtf8(c.server + nl + Format(c.port) + nl, c.clientName);
    ConcatIsUtf8(c.server + nl + Format(c.port) + nl + c.clientName, nl);
    ConcatIsUtf8(c.server + nl + Format(c.port) + nl + c.clientName + nl, c.topicPrefix);
  }

  /** Round trip: loading the saved text of a single-line configuration restores it. */
  lemma ParseSerialize(c: Configuration)
    requires IsRustText(c) && IsSingleLine(c)
    ensures Parse(Serialize(c)) == Success(c)
  {
    SerializeIsUtf8(c);
    FormatIsPlainText(c.port);
    var lines := [c.server, Format(c.port), c.clientName, c.topicPrefix];
    JoinFour(lines, NEWLINE);
    SplitJoin(lines, NEWLINE);
    assert Split(Serialize(c), NEWLINE) == lines;
    ParseFormat(c.port);
  }

  /** Saving what was loaded and loading it again gives the same configuration. */
  lemma ParseIsStable(text: Bytes)
    requires Parse(text).Success?
    ensures Parse(Serialize(Parse(text).value)) == Parse(text)
  {
    ParseSerialize(Parse(text).value);
  }
}
