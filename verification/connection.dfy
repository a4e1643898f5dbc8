/**
 * The connection slot: the stored MQTT client (`CLIENT`) and the join handle
 * of its network-loop thread (`JOIN_HANDLE`), with `setup` and `teardown`.
 *
 * Threads are named by identifiers drawn from a counter; the slot also
 * remembers every thread ever spawned and every thread joined, so that "at
 * most one network-loop thread is alive" can be stated.
 */
module Connection {
  import opened Wrappers
  import opened Utf8
  import opened Decimal
  import opened Config

  type ThreadId = nat

  /**
   * A client created by `Client::new(MqttOptions::new(client_name, server, port), 10)`,
   * served by the network-loop thread `thread`.
   */
  datatype Session = Session(thread: ThreadId, clientId: Bytes, host: Bytes, port: u16)

  datatype Slot = Slot(
    client: Option<Session>,
    joinHandle: Option<ThreadId>,
    spawned: set<ThreadId>,
    joined: set<ThreadId>,
    nextThread: ThreadId)

  /** Nothing connected, no thread ever started. */
  const EMPTY: Slot := Slot(None, None, {}, {}, 0)

  /** The network-loop threads that were spawned and not yet joined. */
  function Live(s: Slot): set<ThreadId> {
    s.spawned - s.joined
  }

  /** What `teardown` relies on (its `expect`): a stored client always has its thread's handle. */
  predicate HandleStoredWithClient(s: Slot) {
    s.client.Some? ==> s.joinHandle.Some?
  }

  /**
   * The slot invariant: client and handle are present together and belong to
   * the same thread, that thread is the only live one, and thread
   * identifiers are fresh.
   */
  predicate Valid(s: Slot) {
    && (s.client.Some? <==> s.joinHandle.Some?)
    && (s.client.Some? ==> s.client.value.thread == s.joinHandle.value)
    && s.joined <= s.spawned
    && (forall t :: t in s.spawned ==> t < s.nextThread)
    && Live(s) == (if s.joinHandle.Some? then {s.joinHandle.value} else {})
  }

  /**
   * `teardown`: without a client nothing happens; otherwise the client is
   * disconnected and dropped, and the stored handle is taken and joined.
   * A failing disconnect or join is only logged, so neither changes the outcome.
   */
  function Teardown(s: Slot): (r: Slot)
    requires HandleStoredWithClient(s)
    ensures s.client.None? ==> r == s
    ensures r.client.None?
    ensures r.spawned == s.spawned && r.joined >= s.joined
    ensures Valid(s) ==> Valid(r) && Live(r) == {} && Live(s) <= r.joined
  {
    match s.client
    case None => s
    case Some(_) =>
      s.(client := None, joinHandle := None, joined := s.joined + {s.joinHandle.value})
  }

  /**
   * `setup`: tear the old connection down, then store a client opened with
   * the configuration's client name, server and port, and the handle of the
   * one thread spawned to run its network loop.
   */
  function Setup(s: Slot, c: Configuration): (r: Slot)
    requires HandleStoredWithClient(s)
    ensures r.client.Some? && r.joinHandle.Some?
    ensures r.client.value.clientId == c.clientName
    ensures r.client.value.host == c.server && r.client.value.port == c.port
    ensures r.joined >= s.joined
    ensures Valid(s) ==> && Valid(r) && Live(r) == {r.joinHandle.value}
                         && r.joinHandle.value !in s.spawned && Live(s) <= r.joined
  {
    var quiet := Teardown(s);
    var t := quiet.nextThread;
    quiet.(
      client := Some(Session(t, c.clientName, c.server, c.port)),
      joinHandle := Some(t),
      spawned := quiet.spawned + {t},
      nextThread := t + 1)
  }

  /** A second teardown finds no client and changes nothing. */
  lemma TeardownIdempotent(s: Slot)
    requires HandleStoredWithClient(s)
    ensures Teardown(Teardown(s)) == Teardown(s)
  {
  }

  /** Teardown joins the live thread, and joins it only once. */
  lemma TeardownJoinsOnce(s: Slot)
    requires Valid(s) && s.client.Some?
    ensures s.joinHandle.value !in s.joined
    ensures Teardown(s).joined == s.joined + {s.joinHandle.value}
  {
    assert s.joinHandle.value in Live(s);
  }

  /** Setup begins with a teardown: setting up a torn-down slot is the same as setting up directly. */
  lemma SetupTearsDownFirst(s: Slot, c: Configuration)
    requires HandleStoredWithClient(s)
    ensures Setup(Teardown(s), c) == Setup(s, c)
  {
    TeardownIdempotent(s);
  }

  /** A lifecycle call from the host: `setup` with the current configuration, or `teardown`. */
  datatype Lifecycle = SetupWith(config: Configuration) | TeardownCall

  /** The slot after a sequence of lifecycle calls, each keeping the slot invariant. */
  function Run(s: Slot, calls: seq<Lifecycle>): (r: Slot)
    requires Valid(s)
    ensures Valid(r)
    ensures |Live(r)| <= 1
    ensures r.spawned >= s.spawned && r.joined >= s.joined
    decreases |calls|
  {
    if |calls| == 0 then s
    else
      var next := match calls[0]
        case SetupWith(c) => Setup(s, c)
        case TeardownCall => Teardown(s);
      Run(next, calls[1..])
  }

  /** Whatever happened before, a final teardown leaves no live thread and an empty slot. */
  lemma {:induction false} RunThenTeardown(s: Slot, calls: seq<Lifecycle>)
    requires Valid(s)
    ensures var r := Run(s, calls + [TeardownCall]);
      r.client.None? && r.joinHandle.None? && Live(r) == {}
    decreases |calls|
  {
    if |calls| == 0 {
      assert calls + [TeardownCall] == [TeardownCall];
    } else {
      assert (calls + [TeardownCall])[1..] == calls[1..] + [TeardownCall];
      var next := match calls[0]
        case SetupWith(c) => Setup(s, c)
        case TeardownCall => Teardown(s);
      RunThenTeardown(next, calls[1..]);
    }
  }
}
