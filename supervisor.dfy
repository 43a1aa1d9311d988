/**
 * The reconnect loop `listen_on_hey_websocket_forever`. The socket, JSON and
 * sleeping are replaced by a finite trace of what each connection attempt ran
 * into; the loop's observable behaviour is an event log: connections opened,
 * subscribe frames sent, frames handed to `process`, and sleeps, in order.
 */
module Supervisor {
  import opened Wrappers
  import Hey

  /** The first retry delay, 0.1 s, in milliseconds. */
  const InitialDelay: nat := 100

  /** A parsed HTML fragment, reduced to the one query `process` makes of it. */
  datatype Markup = Markup(hasClearancesButton: bool)

  /** A decoded JSON object frame: its `type` field and its `message` field, each when present. */
  datatype InboundFrame = InboundFrame(kind: Option<string>, message: Option<Markup>)

  /** What `json.loads` makes of one received text frame. */
  datatype Payload =
    | Undecodable               // json.loads raises
    | NotAnObject               // a list, string, number or null: it has no `.get`
    | Decoded(frame: InboundFrame)

  /** The exception classes the loop tells apart. */
  datatype Failure = ConnectionClosed | AddressLookup | OtherError

  /** How the receive loop of an open connection ended. */
  datatype End =
    | ClosedCleanly             // `async for` just stops (normal close)
    | Raised(failure: Failure)

  /** What one turn of the `while True` loop ran into. */
  datatype Attempt =
    | ConnectFailed(failure: Failure)
        // `websockets.connect` raised: nothing sent, nothing received
    | SubscribeFailed(accepted: nat, failure: Failure)
        // connected; the send after the first `accepted` subscribe frames raised
    | Received(inbound: seq<Payload>, end: End)
        // connected, every subscribe frame sent, then these frames read until the end

  /** What the loop is observed to do. */
  datatype Event =
    | Opened                    // a connection was established
    | Subscribed(channel: string)  // {command: "subscribe", identifier: channel} was sent
    | Handled(frame: InboundFrame) // the frame was passed to `process`
    | Slept(ms: nat)            // `asyncio.sleep(retry_delay)`

  /** An exception that leaves the loop, and with it the program. */
  datatype Fault = Uncaught(failure: Failure) | BadJson | NoGetMethod

  /** Still looping with the current `retry_delay`, or left the loop. */
  datatype Status = Running(delay: nat) | Stopped(fault: Fault)

  datatype Trace = Trace(log: seq<Event>, status: Status)

  /** The `except` clause: only these two are caught and retried. */
  predicate Retried(f: Failure)
  {
    f.ConnectionClosed? || f.AddressLookup?
  }

  /** `message.get('type') == 'ping'`: a missing `type` is not a ping. */
  predicate IsPing(frame: InboundFrame)
  {
    frame.kind == Some("ping")
  }

  /**
   * The two questions `process` asks of a handled frame: does it have a
   * `message` key, and does that fragment hold the `clearances_button` element.
   * They are the first two arguments of `Screening.Screener.Process`.
   */
  function ProcessInputs(frame: InboundFrame): (r: (bool, bool))
    ensures r.0 <==> frame.message.Some?
    ensures r.1 <==> frame.message.Some? && frame.message.value.hasClearancesButton
    ensures r.1 ==> r.0
  {
    match frame.message
    case None => (false, false)
    case Some(markup) => (true, markup.hasClearancesButton)
  }

  /** One subscribe frame per channel, in list order. */
  function SubscribeFrames(channels: seq<string>): seq<Event>
  {
    seq(|channels|, i requires 0 <= i < |channels| => Subscribed(channels[i]))
  }

  /** Reading an open connection: the frames handed to `process`, and the fault that stopped reading, if any. */
  function Read(inbound: seq<Payload>): (seq<Event>, Option<Fault>)
  {
    if inbound == [] then ([], None)
    else
      var (events, fault) := Read(inbound[..|inbound| - 1]);
      if fault.Some? then (events, fault)
      else match inbound[|inbound| - 1]
        case Undecodable => (events, Some(BadJson))
        case NotAnObject => (events, Some(NoGetMethod))
        case Decoded(frame) => if IsPing(frame) then (events, None) else (events + [Handled(frame)], None)
  }

  /** The handler: sleep for the delay and double it, or let the exception out. */
  function Recover(delay: nat, f: Failure): Trace
  {
    if Retried(f) then Trace([Slept(delay)], Running(delay * 2)) else Trace([], Stopped(Uncaught(f)))
  }

  /**
   * One turn of the loop, entered with `retry_delay == delay`. A turn opens a
   * connection unless connecting itself failed, and a turn that opened one
   * leaves the delay at 0 if the loop goes on.
   */
  function Step(channels: seq<string>, delay: nat, a: Attempt): (r: Trace)
    ensures a.ConnectFailed? <==> r.log == [] || r.log[0] != Opened
    ensures !a.ConnectFailed? && r.status.Running? ==> r.status.delay == 0
  {
    match a
    case ConnectFailed(f) => Recover(delay, f)
    case SubscribeFailed(k, f) =>
      var sent := if k < |channels| then k else |channels|;
      var rec := Recover(0, f);
      Trace([Opened] + SubscribeFrames(channels[..sent]) + rec.log, rec.status)
    case Received(inbound, end) =>
      var session := [Opened] + SubscribeFrames(channels) + Read(inbound).0;
      if Read(inbound).1.Some? then Trace(session, Stopped(Read(inbound).1.value))
      else match end
        case ClosedCleanly => Trace(session, Running(0))
        case Raised(f) => Trace(session + Recover(0, f).log, Recover(0, f).status)
  }

  /** The loop run over a whole trace of attempts; attempts after it stopped are never made. */
  function Supervise(channels: seq<string>, attempts: seq<Attempt>): Trace
  {
    if attempts == [] then Trace([], Running(InitialDelay))
    else
      var before := Supervise(channels, attempts[..|attempts| - 1]);
      if before.status.Stopped? then before
      else
        var step := Step(channels, before.status.delay, attempts[|attempts| - 1]);
        Trace(before.log + step.log, step.status)
  }

  /** The handshake headers: user agent, origin and the session's cookies. */
  function Handshake(jar: seq<Hey.Cookie>): (h: map<string, string>)
    ensures h.Keys == {"User-Agent", "Origin", "Cookie"}
    ensures h["User-Agent"] == Hey.UserAgent && h["Origin"] == Hey.Origin
    ensures h["Cookie"] == Hey.CookieHeader(jar)
    ensures Hey.HeaderSafe(jar) ==> Hey.ParseCookieHeader(h["Cookie"]) == jar
  {
    assert Hey.HeaderSafe(jar) ==> Hey.ParseCookieHeader(Hey.CookieHeader(jar)) == jar by {
      if Hey.HeaderSafe(jar) {
        Hey.CookieHeaderRoundTrip(jar);
      }
    }
    map["User-Agent" := Hey.UserAgent, "Origin" := Hey.Origin, "Cookie" := Hey.CookieHeader(jar)]
  }

  // ---------------------------------------------------------------- the loop

  /** The receive loop of one open connection. */
  method ReadFrames(inbound: seq<Payload>) returns (events: seq<Event>, fault: Option<Fault>)
    ensures (events, fault) == Read(inbound)
  {
    events, fault := [], None;
    var j := 0;
    while j < |inbound| && fault.None?
      invariant 0 <= j <= |inbound|
      invariant (events, fault) == Read(inbound[..j])
      invariant fault.Some? ==> Read(inbound) == Read(inbound[..j])
    {
      assert inbound[..j + 1][..j] == inbound[..j];
      match inbound[j] {
        case Undecodable =>
          fault := Some(BadJson);
        case NotAnObject =>
          fault := Some(NoGetMethod);
        case Decoded(frame) =>
          if !IsPing(frame) {
            events := events + [Handled(frame)];
          }
      }
      j := j + 1;
      if fault.Some? {
        ReadKeepsFault(inbound, j);
      }
    }
    assert j == |inbound| ==> inbound[..j] == inbound;
  }

  /** One turn of the loop body: connect, subscribe, read, and the `except` clause. */
  method Turn(channels: seq<string>, retryDelay: nat, a: Attempt) returns (events: seq<Event>, status: Status)
    ensures Trace(events, status) == Step(channels, retryDelay, a)
  {
    match a
    case ConnectFailed(f) =>
      events, status := [], Running(retryDelay);
      if Retried(f) {
        events := events + [Slept(retryDelay)];
        status := Running(retryDelay * 2);
      } else {
        status := Stopped(Uncaught(f));
      }
    case SubscribeFailed(k, f) =>
      events := [Opened];
      var delay := 0;
      var j := 0;
      while j < |channels| && j < k
        invariant 0 <= j <= |channels| && j <= k
        invariant events == [Opened] + SubscribeFrames(channels[..j])
      {
        events := events + [Subscribed(channels[j])];
        j := j + 1;
      }
      if Retried(f) {
        events := events + [Slept(delay)];
        status := Running(delay * 2);
      } else {
        status := Stopped(Uncaught(f));
      }
    case Received(inbound, end) =>
      events := [Opened];
      var delay := 0;
      var j := 0;
      while j < |channels|
        invariant 0 <= j <= |channels|
        invariant events == [Opened] + SubscribeFrames(channels[..j])
      {
        events := events + [Subscribed(channels[j])];
        j := j + 1;
      }
      assert channels[..j] == channels;
      var handled, fault := ReadFrames(inbound);
      events := events + handled;
      if fault.Some? {
        status := Stopped(fault.value);
      } else if end.ClosedCleanly? {
        status := Running(delay);
      } else if Retried(end.failure) {
        events := events + [Slept(delay)];
        status := Running(delay * 2);
      } else {
        status := Stopped(Uncaught(end.failure));
      }
  }

  /** `listen_on_hey_websocket_forever` over a finite trace of attempts, the channel list fetched once. */
  method Listen(channels: seq<string>, attempts: seq<Attempt>) returns (log: seq<Event>, status: Status)
    ensures Trace(log, status) == Supervise(channels, attempts)
  {
    log, status := [], Running(InitialDelay);
    var i := 0;
    while i < |attempts| && status.Running?
      invariant 0 <= i <= |attempts|
      invariant Trace(log, status) == Supervise(channels, attempts[..i])
    {
      assert attempts[..i + 1][..i] == attempts[..i];
      var events, next := Turn(channels, status.delay, attempts[i]);
      log, status := log + events, next;
      i := i + 1;
    }
    if i < |attempts| {
      StoppedIsFinal(channels, attempts, i);
    } else {
      assert attempts[..i] == attempts;
    }
  }

  // ---------------------------------------------------------------- lemmas

  lemma {:induction false} ReadKeepsFault(inbound: seq<Payload>, j: nat)
    requires j <= |inbound| && Read(inbound[..j]).1.Some?
    ensures Read(inbound) == Read(inbound[..j])
    decreases |inbound| - j
  {
    if j < |inbound| {
      assert inbound[..j + 1][..j] == inbound[..j];
      ReadKeepsFault(inbound, j + 1);
    } else {
      assert inbound[..j] == inbound;
    }
  }

  /** Once the loop has been left, later attempts change nothing. */
  lemma {:induction false} StoppedIsFinal(channels: seq<string>, attempts: seq<Attempt>, i: nat)
    requires i <= |attempts| && Supervise(channels, attempts[..i]).status.Stopped?
    ensures Supervise(channels, attempts) == Supervise(channels, attempts[..i])
    decreases |attempts| - i
  {
    if i < |attempts| {
      assert attempts[..i + 1][..i] == attempts[..i];
      StoppedIsFinal(channels, attempts, i + 1);
    } else {
      assert attempts[..i] == attempts;
    }
  }

  /** The frames handed to `process`, read front to back: every decoded frame that is not a ping. */
  function Relevant(inbound: seq<Payload>): seq<Event>
  {
    if inbound == [] then []
    else
      var first := if inbound[0].Decoded? && !IsPing(inbound[0].frame) then [Handled(inbound[0].frame)] else [];
      first + Relevant(inbound[1..])
  }

  lemma {:induction false} RelevantAppend(a: seq<Payload>, b: seq<Payload>)
    ensures Relevant(a + b) == Relevant(a) + Relevant(b)
  {
    if a != [] {
      assert (a + b)[1..] == a[1..] + b;
      RelevantAppend(a[1..], b);
    } else {
      assert a + b == b;
    }
  }

  /** With every frame decodable, reading hands exactly the non-ping frames to `process`, in order. */
  lemma {:induction false} ReadAllDecoded(inbound: seq<Payload>)
    requires forall i :: 0 <= i < |inbound| ==> inbound[i].Decoded?
    ensures Read(inbound) == (Relevant(inbound), None)
  {
    if inbound != [] {
      var n := |inbound| - 1;
      var prefix := inbound[..n];
      assert forall i :: 0 <= i < n ==> prefix[i] == inbound[i];
      ReadAllDecoded(prefix);
      RelevantAppend(prefix, [inbound[n]]);
      assert prefix + [inbound[n]] == inbound;
      assert [inbound[n]][1..] == [];
      var frame := inbound[n].frame;
      assert inbound[n] == Decoded(frame);
      if IsPing(frame) {
        assert Relevant([inbound[n]]) == [];
        assert Relevant(prefix) + [] == Relevant(prefix);
        assert Read(inbound) == Read(prefix);
      } else {
        assert Relevant([inbound[n]]) == [Handled(frame)];
        assert Read(inbound) == (Read(prefix).0 + [Handled(frame)], None);
      }
    }
  }

  /** The first frame that is not a decodable object ends the connection: the frames before it are handled, none after. */
  lemma ReadStopsAtFirstBad(inbound: seq<Payload>, k: nat)
    requires k < |inbound| && !inbound[k].Decoded?
    requires forall i :: 0 <= i < k ==> inbound[i].Decoded?
    ensures Read(inbound).0 == Relevant(inbound[..k])
    ensures Read(inbound).1 == Some(if inbound[k].Undecodable? then BadJson else NoGetMethod)
  {
    assert forall i :: 0 <= i < k ==> inbound[..k][i] == inbound[i];
    ReadAllDecoded(inbound[..k]);
    assert inbound[..k + 1][..k] == inbound[..k];
    ReadKeepsFault(inbound, k + 1);
  }

  /** Reading produces nothing but Handled events, and never for a ping. */
  lemma {:induction false} ReadHandlesNoPing(inbound: seq<Payload>)
    ensures forall k :: 0 <= k < |Read(inbound).0| ==>
      Read(inbound).0[k].Handled? && !IsPing(Read(inbound).0[k].frame)
  {
    if inbound != [] {
      ReadHandlesNoPing(inbound[..|inbound| - 1]);
    }
  }

  /** How many subscribe frames a turn that connected got out. */
  function Sent(channels: seq<string>, a: Attempt): (n: nat)
    requires !a.ConnectFailed?
    ensures n <= |channels|
  {
    if a.Received? || |channels| <= a.accepted then |channels| else a.accepted
  }

  /**
   * The events of a turn that connected: the opening, the first `n` subscribe
   * frames in channel order, then only frames handed to `process` (when every
   * subscribe frame went out) and at most sleeps of 0 ms.
   */
  ghost predicate ConnectedShape(channels: seq<string>, s: seq<Event>, n: nat, handles: bool)
    requires n <= |channels|
  {
    && 1 + n <= |s| && s[0] == Opened
    && (forall k :: 1 <= k < 1 + n ==> s[k] == Subscribed(channels[k - 1]))
    && (forall k :: 1 + n <= k < |s| ==> (s[k].Handled? && handles && !IsPing(s[k].frame)) || s[k] == Slept(0))
  }

  lemma ConnectedParts(channels: seq<string>, n: nat, body: seq<Event>, handles: bool)
    requires n <= |channels|
    requires forall k :: 0 <= k < |body| ==> (body[k].Handled? && handles && !IsPing(body[k].frame)) || body[k] == Slept(0)
    ensures ConnectedShape(channels, [Opened] + SubscribeFrames(channels[..n]) + body, n, handles)
  {
    var s := [Opened] + SubscribeFrames(channels[..n]) + body;
    assert forall k :: 1 <= k < 1 + n ==> s[k] == SubscribeFrames(channels[..n])[k - 1];
    assert forall k :: 1 + n <= k < |s| ==> s[k] == body[k - 1 - n];
  }

  /** A turn that connected has that shape, and leaves the delay at 0 when it retries. */
  lemma ConnectedStep(channels: seq<string>, delay: nat, a: Attempt)
    requires !a.ConnectFailed?
    ensures ConnectedShape(channels, Step(channels, delay, a).log, Sent(channels, a), a.Received?)
    ensures var st := Step(channels, delay, a).status; st.Running? ==> st.delay == 0
  {
    match a
    case SubscribeFailed(n, f) =>
      ConnectedParts(channels, Sent(channels, a), Recover(0, f).log, false);
    case Received(inbound, end) =>
      assert channels[..|channels|] == channels;
      var handled := Read(inbound).0;
      ReadHandlesNoPing(inbound);
      var rest := if Read(inbound).1.Some? || end.ClosedCleanly? then [] else Recover(0, end.failure).log;
      assert [Opened] + SubscribeFrames(channels) + handled + rest == [Opened] + SubscribeFrames(channels) + (handled + rest);
      ConnectedParts(channels, |channels|, handled + rest, true);
  }

  /**
   * A turn that failed to connect: a caught failure sleeps exactly once, for the
   * current delay, which then doubles; any other failure stops without sleeping.
   */
  lemma FailedStep(channels: seq<string>, delay: nat, a: Attempt)
    requires a.ConnectFailed?
    ensures var t := Step(channels, delay, a);
      && |t.log| == (if Retried(a.failure) then 1 else 0)
      && (t.status.Stopped? <==> !Retried(a.failure))
      && (forall k :: 0 <= k < |t.log| ==> t.log[k] == Slept(delay))
      && (t.status.Running? ==> t.status.delay == 2 * delay)
  {
  }

  /** `2 ** k` */
  function Pow2(k: nat): (r: nat)
    ensures r >= 1
  {
    if k == 0 then 1 else 2 * Pow2(k - 1)
  }

  /** k retried connect failures in a row from the start: the sleeps are 100, 200, 400, ... ms, and the delay is then 100 * 2^k. */
  lemma {:induction false} BackoffBeforeFirstConnect(channels: seq<string>, attempts: seq<Attempt>)
    requires forall i :: 0 <= i < |attempts| ==> attempts[i].ConnectFailed? && Retried(attempts[i].failure)
    ensures var log := Supervise(channels, attempts).log;
      |log| == |attempts| && forall k :: 0 <= k < |log| ==> log[k] == Slept(InitialDelay * Pow2(k))
    ensures Supervise(channels, attempts).status == Running(InitialDelay * Pow2(|attempts|))
  {
    if attempts != [] {
      var n := |attempts| - 1;
      assert forall i :: 0 <= i < n ==> attempts[..n][i] == attempts[i];
      BackoffBeforeFirstConnect(channels, attempts[..n]);
      assert InitialDelay * Pow2(n) * 2 == InitialDelay * Pow2(n + 1);
    }
  }

  /** Once any connection has opened, every later sleep is 0 ms and the delay stays 0. */
  lemma {:induction false} QuietAfterConnect(channels: seq<string>, attempts: seq<Attempt>)
    ensures var t := Supervise(channels, attempts);
      && (forall i, j :: 0 <= i < j < |t.log| && t.log[i] == Opened && t.log[j].Slept? ==> t.log[j].ms == 0)
      && (Opened in t.log && t.status.Running? ==> t.status.delay == 0)
  {
    if attempts != [] {
      var n := |attempts| - 1;
      QuietAfterConnect(channels, attempts[..n]);
      var before := Supervise(channels, attempts[..n]);
      if before.status.Running? {
        var d := before.status.delay;
        var a := attempts[n];
        var s := Step(channels, d, a).log;
        var b := |before.log|;
        var log := before.log + s;
        assert Supervise(channels, attempts).log == log;
        assert forall k :: 0 <= k < b ==> log[k] == before.log[k];
        assert forall k :: b <= k < |log| ==> log[k] == s[k - b];
        if a.ConnectFailed? {
          FailedStep(channels, d, a);
          assert Opened in log ==> Opened in before.log;
        } else {
          ConnectedStep(channels, d, a);
        }
      }
    }
  }

  /** Connection `o` opened before frame `j` was handled, sent every subscribe frame first, and was the last to open. */
  ghost predicate OpenedFor(channels: seq<string>, log: seq<Event>, o: nat, j: nat)
  {
    && o + |channels| < j < |log|
    && log[o] == Opened
    && log[o + 1..o + 1 + |channels|] == SubscribeFrames(channels)
    && forall m :: o < m < j ==> log[m] != Opened
  }

  /**
   * Every frame handed to `process` comes after a connection opened, with a
   * subscribe frame for each channel, in order, right after the opening, and
   * no other connection opened in between.
   */
  ghost predicate SubscribedFirst(channels: seq<string>, log: seq<Event>)
  {
    forall j :: 0 <= j < |log| && log[j].Handled? ==> exists o: nat :: OpenedFor(channels, log, o, j)
  }

  lemma OpenedForPrefix(channels: seq<string>, log: seq<Event>, more: seq<Event>, o: nat, j: nat)
    requires OpenedFor(channels, log, o, j)
    ensures OpenedFor(channels, log + more, o, j)
  {
    var all := log + more;
    assert all[o + 1..o + 1 + |channels|] == log[o + 1..o + 1 + |channels|];
    assert forall m :: o < m < j ==> all[m] == log[m];
  }

  lemma OpenedForStep(channels: seq<string>, log: seq<Event>, delay: nat, a: Attempt, j: nat)
    requires var s := Step(channels, delay, a).log;
      |log| <= j < |log| + |s| && s[j - |log|].Handled?
    ensures OpenedFor(channels, log + Step(channels, delay, a).log, |log|, j)
  {
    var s := Step(channels, delay, a).log;
    var all := log + s;
    var b := |log|;
    if a.ConnectFailed? {
      FailedStep(channels, delay, a);
      assert false;
    }
    ConnectedStep(channels, delay, a);
    assert a.Received? && Sent(channels, a) == |channels|;
    assert forall k :: b <= k < |all| ==> all[k] == s[k - b];
    assert all[b + 1..b + 1 + |channels|] == SubscribeFrames(channels);
  }

  /** The subscribe-before-handle order holds for every run. */
  lemma {:induction false} SubscribeBeforeHandle(channels: seq<string>, attempts: seq<Attempt>)
    ensures SubscribedFirst(channels, Supervise(channels, attempts).log)
  {
    if attempts != [] {
      var n := |attempts| - 1;
      SubscribeBeforeHandle(channels, attempts[..n]);
      var before := Supervise(channels, attempts[..n]);
      if before.status.Running? {
        var s := Step(channels, before.status.delay, attempts[n]).log;
        var log := before.log + s;
        var b := |before.log|;
        forall j | 0 <= j < |log| && log[j].Handled?
          ensures exists o: nat :: OpenedFor(channels, log, o, j)
        {
          if j < b {
            assert before.log[j] == log[j];
            var o: nat :| OpenedFor(channels, before.log, o, j);
            OpenedForPrefix(channels, before.log, s, o, j);
          } else {
            assert s[j - b] == log[j];
            OpenedForStep(channels, before.log, before.status.delay, attempts[n], j);
          }
        }
        assert Supervise(channels, attempts).log == log;
      }
    }
  }

  /** No frame handed to `process` in the log is a ping. */
  ghost predicate NoPingHandled(log: seq<Event>)
  {
    forall j :: 0 <= j < |log| && log[j].Handled? ==> !IsPing(log[j].frame)
  }

  /** Pings never reach `process`. */
  lemma {:induction false} PingsNeverHandled(channels: seq<string>, attempts: seq<Attempt>)
    ensures NoPingHandled(Supervise(channels, attempts).log)
  {
    if attempts != [] {
      var n := |attempts| - 1;
      PingsNeverHandled(channels, attempts[..n]);
      var before := Supervise(channels, attempts[..n]);
      if before.status.Running? {
        var d := before.status.delay;
        var a := attempts[n];
        var s := Step(channels, d, a).log;
        var log := before.log + s;
        var b := |before.log|;
        assert Supervise(channels, attempts).log == log;
        if a.ConnectFailed? {
          FailedStep(channels, d, a);
        } else {
          ConnectedStep(channels, d, a);
        }
        forall j | 0 <= j < |log| && log[j].Handled? ensures !IsPing(log[j].frame) {
          if j < b {
            assert before.log[j] == log[j];
          } else {
            assert log[j] == s[j - b];
          }
        }
      }
    }
  }

  /** The channels named by the subscribe frames of a log, in order. */
  function ChannelsSent(log: seq<Event>): seq<string>
  {
    if log == [] then []
    else (if log[0].Subscribed? then [log[0].channel] else []) + ChannelsSent(log[1..])
  }

  /** How many connections a log opened. */
  function Connections(log: seq<Event>): nat
  {
    if log == [] then 0 else (if log[0] == Opened then 1 else 0) + Connections(log[1..])
  }

  /** The channel list, n times over. */
  function Repeat(channels: seq<string>, n: nat): seq<string>
  {
    if n == 0 then [] else Repeat(channels, n - 1) + channels
  }

  lemma {:induction false} CountsAppend(a: seq<Event>, b: seq<Event>)
    ensures ChannelsSent(a + b) == ChannelsSent(a) + ChannelsSent(b)
    ensures Connections(a + b) == Connections(a) + Connections(b)
  {
    if a != [] {
      assert (a + b)[1..] == a[1..] + b;
      CountsAppend(a[1..], b);
    } else {
      assert a + b == b;
    }
  }

  lemma {:induction false} CountsOfSubscribeFrames(channels: seq<string>)
    ensures ChannelsSent(SubscribeFrames(channels)) == channels
    ensures Connections(SubscribeFrames(channels)) == 0
  {
    if channels != [] {
      assert SubscribeFrames(channels)[1..] == SubscribeFrames(channels[1..]);
      CountsOfSubscribeFrames(channels[1..]);
    }
  }

  lemma {:induction false} CountsOfOther(log: seq<Event>)
    requires forall k :: 0 <= k < |log| ==> log[k].Handled? || log[k].Slept?
    ensures ChannelsSent(log) == [] && Connections(log) == 0
  {
    if log != [] {
      CountsOfOther(log[1..]);
    }
  }

  /** A turn whose subscribe phase did not break off sends the whole channel list once per connection. */
  lemma StepCounts(channels: seq<string>, delay: nat, a: Attempt)
    requires !a.SubscribeFailed?
    ensures var s := Step(channels, delay, a).log;
      && ChannelsSent(s) == (if a.Received? then channels else [])
      && Connections(s) == (if a.Received? then 1 else 0)
  {
    var s := Step(channels, delay, a).log;
    if a.ConnectFailed? {
      FailedStep(channels, delay, a);
      CountsOfOther(s);
    } else {
      ConnectedStep(channels, delay, a);
      var body := s[1 + |channels|..];
      assert s == [Opened] + SubscribeFrames(channels) + body;
      CountsAppend([Opened], SubscribeFrames(channels));
      CountsAppend([Opened] + SubscribeFrames(channels), body);
      CountsOfSubscribeFrames(channels);
      CountsOfOther(body);
      assert [Opened][1..] == [];
    }
  }

  /**
   * When every subscribe phase completes, the subscribe frames of the whole run
   * are the one channel list, once per connection: nothing lost, nothing
   * duplicated, nothing reordered across reconnects.
   */
  lemma {:induction false} Resubscribe(channels: seq<string>, attempts: seq<Attempt>)
    requires forall i :: 0 <= i < |attempts| ==> !attempts[i].SubscribeFailed?
    ensures var log := Supervise(channels, attempts).log;
      ChannelsSent(log) == Repeat(channels, Connections(log))
  {
    if attempts != [] {
      var n := |attempts| - 1;
      assert forall i :: 0 <= i < n ==> attempts[..n][i] == attempts[i];
      Resubscribe(channels, attempts[..n]);
      var before := Supervise(channels, attempts[..n]);
      if before.status.Running? {
        var s := Step(channels, before.status.delay, attempts[n]).log;
        CountsAppend(before.log, s);
        StepCounts(channels, before.status.delay, attempts[n]);
      }
    }
  }
}
