/** The reconnecting WebSocket service of the dashboard, channel by channel.

  The browser side is part of the state: sockets whose close event is still to come,
  timeouts that have not fired, intervals that have not been cleared.  Their ids are
  fresh and never zero.
 */
module Reconnect {
  import opened Wrappers
  import Powers

  const MAX_ATTEMPTS: nat := 20
  const BASE_DELAY := 1000.0
  const MAX_DELAY := 30000.0

  // What the service and the browser hold for one channel; no attempts count as zero.
  datatype Channel = Channel(socket: Option<nat>, live: set<nat>,
                             timeout: Option<nat>, pending: set<nat>,
                             attempts: nat,
                             ping: Option<nat>, pinging: set<nat>)

  const IDLE := Channel(None, {}, None, {}, 0, None, {})

  // Ids in events are those the browser hands out; ok tells whether a socket could be made.
  datatype Event =
    | Connect(id: nat, ok: bool)
    | Opened(socket: nat, interval: nat)
    | Closed(socket: nat, timer: nat)
    | Fired(timer: nat, id: nat, ok: bool)
    | Disconnect

  // ----- One event -----

  function Connected(c: Channel, id: nat, ok: bool): Channel {
    if c.socket.Some? || !ok then c else c.(socket := Some(id), live := c.live + {id})
  }

  function Silenced(c: Channel): Channel {
    if c.ping.None? then c else c.(ping := None, pinging := c.pinging - {c.ping.value})
  }

  function Lost(c: Channel, socket: nat, timer: nat): Channel {
    var d := Silenced(c.(live := c.live - {socket}, socket := None));
    if d.attempts >= MAX_ATTEMPTS then d
    else d.(attempts := d.attempts + 1, pending := d.pending + {timer}, timeout := Some(timer))
  }

  function Step(c: Channel, e: Event): Channel {
    match e
    case Connect(id, ok) => Connected(c, id, ok)
    case Opened(socket, interval) =>
      var d := Silenced(c.(attempts := 0));
      d.(ping := Some(interval), pinging := d.pinging + {interval})
    case Closed(socket, timer) => Lost(c, socket, timer)
    case Fired(timer, id, ok) => Connected(c.(pending := c.pending - {timer}), id, ok)
    case Disconnect =>
      Silenced(c.(socket := None, timeout := None, attempts := 0,
                  pending := if c.timeout.Some? then c.pending - {c.timeout.value} else c.pending))
  }

  // The browser delivers events of things that exist, and hands out fresh ids.
  predicate Enabled(c: Channel, e: Event) {
    match e
    case Connect(id, _) => id !in c.live
    case Opened(socket, interval) => socket in c.live && interval !in c.pinging
    case Closed(socket, timer) => socket in c.live && timer !in c.pending
    case Fired(timer, id, _) => timer in c.pending && id !in c.live
    case Disconnect => true
  }

  ghost predicate CanRun(c: Channel, es: seq<Event>)
    decreases |es|
  {
    es != [] ==> Enabled(c, es[0]) && CanRun(Step(c, es[0]), es[1..])
  }

  function After(c: Channel, es: seq<Event>): Channel
    decreases |es|
  {
    if es == [] then c else After(Step(c, es[0]), es[1..])
  }

  // ----- Reconnection comes to rest -----

  predicate Automatic(e: Event) {
    e.Closed? || e.Fired?
  }

  function Remaining(c: Channel): int {
    2 * (MAX_ATTEMPTS - c.attempts) + 2 * |c.pending| + |c.live|
  }

  lemma AutomaticProgress(c: Channel, e: Event)
    requires c.attempts <= MAX_ATTEMPTS && Enabled(c, e) && Automatic(e)
    ensures Step(c, e).attempts <= MAX_ATTEMPTS
    ensures 0 <= Remaining(Step(c, e)) < Remaining(c)
  {
  }

  lemma {:induction false} AttemptsBounded(c: Channel, es: seq<Event>)
    requires c.attempts <= MAX_ATTEMPTS
    ensures After(c, es).attempts <= MAX_ATTEMPTS
    decreases |es|
  {
    if es != [] {
      AttemptsBounded(Step(c, es[0]), es[1..]);
    }
  }

  // Left alone, after any history, a channel can go through only so many closes and
  // timer firings.
  lemma {:induction false} ComesToRest(c: Channel, es: seq<Event>)
    requires c.attempts <= MAX_ATTEMPTS && CanRun(c, es) && forall e :: e in es ==> Automatic(e)
    ensures |es| <= Remaining(c) - Remaining(After(c, es)) && Remaining(After(c, es)) >= 0
    decreases |es|
  {
    if es != [] {
      AutomaticProgress(c, es[0]);
      ComesToRest(Step(c, es[0]), es[1..]);
    }
  }

  // It rests only when no retry is pending and no socket is left.
  lemma RestsIff(c: Channel)
    ensures (forall e :: Automatic(e) ==> !Enabled(c, e)) <==> c.pending == {} && c.live == {}
  {
    if c.pending != {} {
      var t :| t in c.pending;
      assert Automatic(Fired(t, Fresh(c.live), true)) && Enabled(c, Fired(t, Fresh(c.live), true));
    }
    if c.live != {} {
      var s :| s in c.live;
      assert Automatic(Closed(s, Fresh(c.pending))) && Enabled(c, Closed(s, Fresh(c.pending)));
    }
  }

  ghost function Fresh(ids: set<nat>): (id: nat)
    ensures id !in ids
  {
    FreshExists(ids);
    var id: nat :| id !in ids;
    id
  }

  lemma {:induction false} FreshExists(ids: set<nat>)
    ensures exists id: nat :: id !in ids
  {
    var top := UpperBound(ids);
    assert top + 1 !in ids;
  }

  lemma {:induction false} UpperBound(ids: set<nat>) returns (top: nat)
    ensures forall id :: id in ids ==> id <= top
    decreases ids
  {
    if ids == {} {
      top := 0;
    } else {
      var x :| x in ids;
      var rest := UpperBound(ids - {x});
      top := if x > rest then x else rest;
      assert forall id :: id in ids ==> id == x || id in ids - {x};
    }
  }

  // ----- Retries between opens -----

  // The number of closes that schedule a retry.
  function Retries(c: Channel, es: seq<Event>): nat
    decreases |es|
  {
    if es == [] then 0
    else (if es[0].Closed? && c.attempts < MAX_ATTEMPTS then 1 else 0) + Retries(Step(c, es[0]), es[1..])
  }

  // Until the next open or disconnect at most 20 retries are scheduled, whatever else happens.
  lemma {:induction false} RetriesBounded(c: Channel, es: seq<Event>)
    requires c.attempts <= MAX_ATTEMPTS && forall e :: e in es ==> !e.Opened? && !e.Disconnect?
    ensures c.attempts + Retries(c, es) == After(c, es).attempts <= 20
    decreases |es|
  {
    if es != [] {
      assert es[0] in es;
      RetriesBounded(Step(c, es[0]), es[1..]);
    }
  }

  // ----- What is left of the past -----

  lemma {:induction false} AfterSplit(c: Channel, es: seq<Event>, i: nat)
    requires i <= |es|
    ensures After(c, es) == After(After(c, es[..i]), es[i..])
    decreases i
  {
    if i > 0 {
      AfterSplit(Step(c, es[0]), es[1..], i - 1);
      assert es[..i][1..] == es[1..][..i - 1] && es[1..][i - 1..] == es[i..];
    } else {
      assert es[i..] == es;
    }
  }

  lemma {:induction false} AfterLast(c: Channel, es: seq<Event>)
    requires es != []
    ensures After(c, es) == Step(After(c, es[..|es| - 1]), es[|es| - 1])
  {
    AfterSplit(c, es, |es| - 1);
    assert es[|es| - 1..] == [es[|es| - 1]];
    assert After(After(c, es[..|es| - 1]), [es[|es| - 1]]) == Step(After(c, es[..|es| - 1]), es[|es| - 1]);
  }

  // The counter is the number of retries scheduled since the last open or disconnect.
  lemma AttemptsCountRetries(c: Channel, es: seq<Event>, i: nat)
    requires c.attempts <= MAX_ATTEMPTS && i <= |es| && (i > 0 ==> es[i - 1].Opened? || es[i - 1].Disconnect?)
    requires forall e :: e in es[i..] ==> !e.Opened? && !e.Disconnect?
    ensures After(c, es).attempts == (if i > 0 then 0 else c.attempts) + Retries(After(c, es[..i]), es[i..])
  {
    AfterSplit(c, es, i);
    AttemptsBounded(c, es[..i]);
    RetriesBounded(After(c, es[..i]), es[i..]);
    if i > 0 {
      AfterLast(c, es[..i]);
      assert es[..i][i - 1] == es[i - 1];
    } else {
      assert es[..0] == [];
    }
  }

  // A close with fewer than 20 retries behind it schedules one more, and no other does.
  lemma CloseSchedules(c: Channel, socket: nat, timer: nat)
    ensures var d := Step(c, Closed(socket, timer));
            && d.live == c.live - {socket} && d.socket == None && d.ping == None
            && if c.attempts < 20 then
                 d.attempts == c.attempts + 1 && d.pending == c.pending + {timer} && d.timeout == Some(timer)
               else
                 d.attempts == c.attempts && d.pending == c.pending && d.timeout == c.timeout
  {
  }

  lemma {:induction false} AttemptsStay(c: Channel, es: seq<Event>)
    requires forall e :: e in es ==> e.Connect? || e.Fired?
    ensures After(c, es).attempts == c.attempts
    decreases |es|
  {
    if es != [] {
      assert es[0] in es;
      AttemptsStay(Step(c, es[0]), es[1..]);
    }
  }

  // The first close after an open always schedules a retry, after 1000 to 1500 milliseconds.
  lemma FirstCloseAfterOpen(c: Channel, open: nat, interval: nat, between: seq<Event>, socket: nat, timer: nat, jitter: real)
    requires 0.0 <= jitter < 500.0 && forall e :: e in between ==> e.Connect? || e.Fired?
    ensures var d := After(Step(c, Opened(open, interval)), between);
            && timer in Step(d, Closed(socket, timer)).pending
            && Step(d, Closed(socket, timer)).attempts == 1
            && 1000 <= Delay(d.attempts, jitter) <= 1500
  {
    AttemptsStay(Step(c, Opened(open, interval)), between);
    BackoffMeans(0);
  }

  // The heartbeat is that of the last open, if no close and no disconnect came after it.
  lemma HeartbeatIs(c: Channel, es: seq<Event>, i: nat)
    requires i < |es| && (es[i].Opened? || es[i].Closed? || es[i].Disconnect?)
    requires forall e :: e in es[i + 1..] ==> e.Connect? || e.Fired?
    ensures After(c, es).ping == if es[i].Opened? then Some(es[i].interval) else None
  {
    AfterSplit(c, es, i + 1);
    AfterLast(c, es[..i + 1]);
    assert es[..i + 1][i] == es[i];
    PingStays(After(c, es[..i + 1]), es[i + 1..]);
  }

  lemma {:induction false} PingStays(c: Channel, es: seq<Event>)
    requires forall e :: e in es ==> e.Connect? || e.Fired?
    ensures After(c, es).ping == c.ping
    decreases |es|
  {
    if es != [] {
      assert es[0] in es;
      PingStays(Step(c, es[0]), es[1..]);
    }
  }

  // A connect that finds no registered socket registers its own, which stays registered until
  // the next close or disconnect.
  lemma SocketIs(c: Channel, es: seq<Event>, i: nat)
    requires i < |es| && (es[i].Connect? || es[i].Fired?) && es[i].ok && After(c, es[..i]).socket == None
    requires forall e :: e in es[i + 1..] ==> !e.Closed? && !e.Disconnect?
    ensures After(c, es).socket == Some(es[i].id) && es[i].id in After(c, es).live
  {
    AfterSplit(c, es, i + 1);
    AfterLast(c, es[..i + 1]);
    assert es[..i + 1][..i] == es[..i] && es[..i + 1][i] == es[i];
    SocketStays(After(c, es[..i + 1]), es[i + 1..]);
  }

  lemma {:induction false} SocketStays(c: Channel, es: seq<Event>)
    requires c.socket.Some? && forall e :: e in es ==> !e.Closed? && !e.Disconnect?
    ensures After(c, es).socket == c.socket && c.live <= After(c, es).live
    decreases |es|
  {
    if es != [] {
      assert es[0] in es;
      SocketStays(Step(c, es[0]), es[1..]);
    }
  }

  // A disconnect forgets everything; of what the browser still has it cancels the last timer
  // and the heartbeat.
  lemma DisconnectForgets(c: Channel)
    ensures var d := Step(c, Disconnect);
            && d.socket == None && d.timeout == None && d.attempts == 0 && d.ping == None && d.live == c.live
            && (forall t :: t in d.pending <==> t in c.pending && c.timeout != Some(t))
            && (forall p :: p in d.pinging <==> p in c.pinging && c.ping != Some(p))
  {
  }

  // A timer fires once, and connects if no socket is registered.
  lemma FiringMeans(c: Channel, timer: nat, id: nat, ok: bool)
    ensures var d := Step(c, Fired(timer, id, ok));
            && d.pending == c.pending - {timer} && d.attempts == c.attempts && d.timeout == c.timeout
            && d.socket == (if c.socket.None? && ok then Some(id) else c.socket)
            && d.live == (if c.socket.None? && ok then c.live + {id} else c.live)
  {
  }

  // Math.round of a positive number.
  function Round(x: real): int {
    (x + 0.5).Floor
  }

  function Backoff(attempts: nat): real {
    var delay := BASE_DELAY * Powers.Power(1.5, attempts);
    if delay < MAX_DELAY then delay else MAX_DELAY
  }

  function Delay(attempts: nat, jitter: real): int {
    Round(Backoff(attempts) + jitter)
  }

  // The delays grow by half from one second up to thirty.
  lemma BackoffMeans(k: nat)
    ensures Backoff(0) == 1000.0
    ensures Backoff(k + 1) == if 1.5 * Backoff(k) < 30000.0 then 1.5 * Backoff(k) else 30000.0
  {
    assert Powers.Power(1.5, k + 1) == Powers.Power(1.5, k) * 1.5;
  }

  // The scheduled delay is the backoff and the jitter, to the nearest millisecond.
  lemma DelayMeans(attempts: nat, jitter: real)
    ensures Backoff(attempts) + jitter - 0.5 < Delay(attempts, jitter) as real <= Backoff(attempts) + jitter + 0.5
  {
  }

  // Every delay lies between one second and half a second more than the cap, and from the
  // ninth retry on it is at the cap.
  lemma DelayBounds(attempts: nat, jitter: real)
    requires 0.0 <= jitter < 500.0
    ensures 1000 <= Delay(attempts, jitter) <= 30500
    ensures Delay(attempts, jitter) >= 30000 <==> attempts >= 9
  {
    Powers.PowerGrows(1.5, 0, attempts);
    PowerAtNine(attempts);
  }

  lemma PowerAtNine(k: nat)
    ensures Powers.Power(1.5, k) >= 30.0 <==> k >= 9
    ensures k < 9 ==> Powers.Power(1.5, k) < 25.7
  {
    var f := k => Powers.Power(1.5, k);
    assert f(2) == 2.25;
    assert f(4) == 1.5 * (1.5 * f(2));
    assert f(6) == 1.5 * (1.5 * f(4));
    assert f(8) == 1.5 * (1.5 * f(6));
    if k >= 9 {
      Powers.PowerGrows(1.5, 9, k);
    } else {
      Powers.PowerGrows(1.5, k, 8);
    }
  }

  // ----- One socket, one heartbeat -----

  function AsSet(o: Option<nat>): set<nat> {
    if o.None? then {} else {o.value}
  }

  // The registered socket is the only one whose close is still to come.
  predicate SingleSocket(c: Channel) {
    c.live == AsSet(c.socket)
  }

  predicate SingleHeartbeat(c: Channel) {
    c.pinging == AsSet(c.ping)
  }

  // Disconnecting while a socket is registered is the one thing that loses track of it.
  lemma KeepsSingleSocketIff(c: Channel, e: Event)
    requires SingleSocket(c) && Enabled(c, e)
    ensures SingleSocket(Step(c, e)) <==> !(e.Disconnect? && c.socket.Some?)
  {
  }

  ghost predicate NoLossyDisconnect(c: Channel, es: seq<Event>)
    decreases |es|
  {
    es != [] ==> !(es[0].Disconnect? && c.socket.Some?) && NoLossyDisconnect(Step(c, es[0]), es[1..])
  }

  lemma {:induction false} SingleSocketHolds(c: Channel, es: seq<Event>)
    requires SingleSocket(c) && CanRun(c, es) && NoLossyDisconnect(c, es)
    ensures SingleSocket(After(c, es)) && |After(c, es).live| <= 1
    decreases |es|
  {
    if es != [] {
      KeepsSingleSocketIff(c, es[0]);
      SingleSocketHolds(Step(c, es[0]), es[1..]);
    }
  }

  // A connect opens a socket while an unregistered one is still to close.
  predicate OpensSecond(c: Channel, e: Event) {
    (e.Connect? || e.Fired?) && e.ok && c.socket.None? && c.live != {}
  }

  lemma AtMostOneSocketIff(c: Channel, e: Event)
    requires |c.live| <= 1 && Enabled(c, e)
    ensures |Step(c, e).live| <= 1 <==> !OpensSecond(c, e)
  {
  }

  ghost predicate AlwaysAtMostOne(c: Channel, es: seq<Event>)
    decreases |es|
  {
    |c.live| <= 1 && (es != [] ==> AlwaysAtMostOne(Step(c, es[0]), es[1..]))
  }

  ghost predicate NeverOpensSecond(c: Channel, es: seq<Event>)
    decreases |es|
  {
    es != [] ==> !OpensSecond(c, es[0]) && NeverOpensSecond(Step(c, es[0]), es[1..])
  }

  // Over every run, disconnects included, a channel has at most one live socket at all times
  // if and only if no connect happens while an unregistered socket is still to close.
  lemma {:induction false} AtMostOneSocketOverRunsIff(c: Channel, es: seq<Event>)
    requires |c.live| <= 1 && CanRun(c, es)
    ensures AlwaysAtMostOne(c, es) <==> NeverOpensSecond(c, es)
    decreases |es|
  {
    if es != [] {
      AtMostOneSocketIff(c, es[0]);
      if OpensSecond(c, es[0]) {
        assert !AlwaysAtMostOne(Step(c, es[0]), es[1..]);
      } else {
        AtMostOneSocketOverRunsIff(Step(c, es[0]), es[1..]);
      }
    }
  }

  // An unregistered socket comes from a disconnect, so without any there is no second one.
  lemma {:induction false} WithoutDisconnectNoSecond(c: Channel, es: seq<Event>)
    requires SingleSocket(c) && CanRun(c, es) && NoLossyDisconnect(c, es)
    ensures NeverOpensSecond(c, es)
    decreases |es|
  {
    if es != [] {
      KeepsSingleSocketIff(c, es[0]);
      WithoutDisconnectNoSecond(Step(c, es[0]), es[1..]);
    }
  }

  lemma Prepend(c: Channel, e: Event, es: seq<Event>)
    requires Enabled(c, e) && CanRun(Step(c, e), es)
    ensures CanRun(c, [e] + es) && After(c, [e] + es) == After(Step(c, e), es)
  {
  }

  // A disconnect whose close event arrives late leaves two sockets on one channel: it
  // unregisters the newer socket, and the retry it schedules opens another.
  lemma TwoSocketsAfterDisconnect()
    ensures exists es :: CanRun(IDLE, es) && After(IDLE, es).live == {2, 4}
    ensures OpensSecond(Step(Step(IDLE, Connect(1, true)), Disconnect), Connect(2, true))
  {
    var e1, e2, e3, e4, e5 := Connect(1, true), Disconnect, Connect(2, true), Closed(1, 3), Fired(3, 4, true);
    var c1 := Step(IDLE, e1);
    var c2 := Step(c1, e2);
    var c3 := Step(c2, e3);
    var c4 := Step(c3, e4);
    var c5 := Step(c4, e5);
    assert c5.live == {2, 4};
    Prepend(c4, e5, []);
    Prepend(c3, e4, [e5] + []);
    Prepend(c2, e3, [e4] + ([e5] + []));
    Prepend(c1, e2, [e3] + ([e4] + ([e5] + [])));
    Prepend(IDLE, e1, [e2] + ([e3] + ([e4] + ([e5] + []))));
  }

  // ----- Disconnected channels that open again -----

  // Closes and timer firings alone lead from the channel to a registered socket.
  ghost predicate OpensByItself(c: Channel) {
    exists es :: CanRun(c, es) && (forall e :: e in es ==> Automatic(e)) && After(c, es).socket.Some?
  }

  lemma FiringOpens(c: Channel)
    requires c.socket.None? && c.pending != {}
    ensures OpensByItself(c)
  {
    var timer :| timer in c.pending;
    var e := Fired(timer, Fresh(c.live), true);
    Prepend(c, e, []);
    assert After(c, [e] + []).socket.Some?;
  }

  lemma ClosingOpens(c: Channel)
    requires c.socket.None? && c.live != {} && c.attempts < MAX_ATTEMPTS
    ensures OpensByItself(c)
  {
    var socket :| socket in c.live;
    var timer := Fresh(c.pending);
    var e := Closed(socket, timer);
    var d := Step(c, e);
    assert timer in d.pending;
    FiringOpens(d);
    var es :| CanRun(d, es) && (forall x :: x in es ==> Automatic(x)) && After(d, es).socket.Some?;
    Prepend(c, e, es);
    assert forall x :: x in [e] + es ==> Automatic(x);
  }

  // A disconnected channel opens again by itself if and only if a close event of one of its
  // sockets is still to come or a timer other than the last one set is still pending.
  lemma ReopensIff(c: Channel)
    ensures OpensByItself(Step(c, Disconnect)) <==>
              c.live != {} || c.pending - (if c.timeout.Some? then {c.timeout.value} else {}) != {}
  {
    var d := Step(c, Disconnect);
    if d.pending != {} {
      FiringOpens(d);
    } else if d.live != {} {
      ClosingOpens(d);
    } else {
      RestsIff(d);
      forall es | CanRun(d, es) && (forall e :: e in es ==> Automatic(e)) ensures After(d, es).socket.None? {
        assert es == [];
      }
    }
  }

  // So after disconnecting a registered socket the channel can always open again by itself.
  lemma DisconnectReopens(c: Channel)
    requires c.socket.Some? && c.socket.value in c.live
    ensures OpensByItself(Step(c, Disconnect))
  {
    ReopensIff(c);
  }

  // In every run at most one heartbeat interval is running.
  lemma {:induction false} SingleHeartbeatHolds(c: Channel, es: seq<Event>)
    requires SingleHeartbeat(c) && CanRun(c, es)
    ensures SingleHeartbeat(After(c, es)) && |After(c, es).pinging| <= 1
    decreases |es|
  {
    if es != [] {
      assert SingleHeartbeat(Step(c, es[0]));
      SingleHeartbeatHolds(Step(c, es[0]), es[1..]);
    }
  }
}
