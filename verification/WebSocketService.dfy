/** The service object behind the reconnect model: its maps over all channels, and the
  browser it talks to.  Each method takes the channel it is about through one event of
  the model and leaves every other channel as it was.
 */
module WebSocketClient {
  import opened Wrappers
  import opened Reconnect

  // Sockets until their close event, timeouts until they fire or are cleared, intervals
  // until they are cleared, each with its channel.
  class Browser {
    var sockets: map<nat, string>
    var timeouts: map<nat, string>
    var intervals: map<nat, string>
    var nextId: nat

    constructor ()
      ensures Valid() && sockets == timeouts == intervals == map[]
    {
      sockets, timeouts, intervals, nextId := map[], map[], map[], 1;
    }

    ghost predicate Valid()
      reads this
    {
      && nextId > 0
      && (forall id :: id in sockets ==> id < nextId)
      && (forall id :: id in timeouts ==> id < nextId)
      && (forall id :: id in intervals ==> id < nextId)
    }
  }

  ghost function Of(m: map<nat, string>, channel: string): set<nat> {
    set id | id in m && m[id] == channel
  }

  lemma Added(m: map<nat, string>, id: nat, channel: string)
    requires id !in m
    ensures forall c :: Of(m[id := channel], c) == if c == channel then Of(m, c) + {id} else Of(m, c)
  {
  }

  lemma Removed(m: map<nat, string>, id: nat)
    ensures forall c :: Of(m - {id}, c) == if id in m && m[id] == c then Of(m, c) - {id} else Of(m, c)
  {
  }

  class WebSocketService {
    const browser: Browser
    var sockets: map<string, nat>
    var reconnectTimeouts: map<string, nat>
    var reconnectAttempts: map<string, nat>
    var pingIntervals: map<string, nat>

    constructor (browser: Browser)
      requires browser.Valid() && browser.sockets == browser.timeouts == browser.intervals == map[]
      ensures this.browser == browser && Valid() && forall c :: View(c) == IDLE
    {
      this.browser := browser;
      sockets, reconnectTimeouts, reconnectAttempts, pingIntervals := map[], map[], map[], map[];
    }

    ghost predicate Valid()
      reads this, browser
    {
      && browser.Valid()
      && (forall c :: c in pingIntervals ==>
            pingIntervals[c] in browser.intervals && browser.intervals[pingIntervals[c]] == c)
      && (forall c :: c in reconnectTimeouts ==> reconnectTimeouts[c] < browser.nextId)
      && (forall c :: c in reconnectTimeouts && reconnectTimeouts[c] in browser.timeouts ==>
            browser.timeouts[reconnectTimeouts[c]] == c)
    }

    ghost function View(c: string): Channel
      reads this, browser
    {
      Channel(Lookup(sockets, c), Of(browser.sockets, c),
              Lookup(reconnectTimeouts, c), Of(browser.timeouts, c),
              if c in reconnectAttempts then reconnectAttempts[c] else 0,
              Lookup(pingIntervals, c), Of(browser.intervals, c))
    }

    // ok is false when the WebSocket constructor throws.
    method Connect(channel: string, ok: bool)
      requires Valid()
      modifies this`sockets, browser`sockets, browser`nextId
      ensures Valid()
      ensures View(channel) == Connected(old(View(channel)), old(browser.nextId), ok)
      ensures forall c :: c != channel ==> View(c) == old(View(c))
    {
      if channel in sockets {
        return;
      }
      if ok {
        var ws := browser.nextId;
        browser.nextId := ws + 1;
        Added(browser.sockets, ws, channel);
        browser.sockets := browser.sockets[ws := channel];
        sockets := sockets[channel := ws];
      }
    }

    method StopHeartbeat(channel: string)
      requires Valid()
      modifies this`pingIntervals, browser`intervals
      ensures Valid() && channel !in pingIntervals
      ensures View(channel) == Silenced(old(View(channel)))
      ensures forall c :: c != channel ==> View(c) == old(View(c))
    {
      if channel in pingIntervals {
        Removed(browser.intervals, pingIntervals[channel]);
        browser.intervals := browser.intervals - {pingIntervals[channel]};
        pingIntervals := pingIntervals - {channel};
      }
    }

    method StartHeartbeat(channel: string) returns (interval: nat)
      requires Valid()
      modifies this`pingIntervals, browser`intervals, browser`nextId
      ensures Valid() && interval == old(browser.nextId)
      ensures View(channel) == var d := Silenced(old(View(channel)));
                               d.(ping := Some(interval), pinging := d.pinging + {interval})
      ensures forall c :: c != channel ==> View(c) == old(View(c))
    {
      StopHeartbeat(channel);
      interval := browser.nextId;
      browser.nextId := interval + 1;
      Added(browser.intervals, interval, channel);
      browser.intervals := browser.intervals[interval := channel];
      pingIntervals := pingIntervals[channel := interval];
    }

    method OnOpen(channel: string, ws: nat) returns (ghost interval: nat)
      requires Valid() && ws in View(channel).live
      modifies this`reconnectAttempts, this`pingIntervals, browser`intervals, browser`nextId
      ensures Valid() && Enabled(old(View(channel)), Opened(ws, interval))
      ensures View(channel) == Step(old(View(channel)), Opened(ws, interval))
      ensures forall c :: c != channel ==> View(c) == old(View(c))
    {
      reconnectAttempts := reconnectAttempts[channel := 0];
      interval := StartHeartbeat(channel);
    }

    // The delay of the retry is None when the attempts are used up.
    method OnClose(channel: string, ws: nat, jitter: real) returns (delay: Option<int>, ghost timer: nat)
      requires Valid() && ws in View(channel).live
      modifies this, browser
      ensures Valid() && Enabled(old(View(channel)), Closed(ws, timer))
      ensures View(channel) == Step(old(View(channel)), Closed(ws, timer))
      ensures forall c :: c != channel ==> View(c) == old(View(c))
      ensures delay == if old(View(channel)).attempts >= MAX_ATTEMPTS then None
                       else Some(Delay(old(View(channel)).attempts, jitter))
    {
      DropSocket(channel, ws);
      StopHeartbeat(channel);
      delay, timer := ScheduleRetry(channel, jitter);
    }

    method DropSocket(channel: string, ws: nat)
      requires Valid() && ws in View(channel).live
      modifies this`sockets, browser`sockets
      ensures Valid()
      ensures View(channel) == old(View(channel)).(live := old(View(channel)).live - {ws}, socket := None)
      ensures forall c :: c != channel ==> View(c) == old(View(c))
    {
      Removed(browser.sockets, ws);
      browser.sockets := browser.sockets - {ws};
      sockets := sockets - {channel};
    }

    method ScheduleRetry(channel: string, jitter: real) returns (delay: Option<int>, ghost timer: nat)
      requires Valid()
      modifies this`reconnectAttempts, this`reconnectTimeouts, browser`timeouts, browser`nextId
      ensures Valid() && timer == old(browser.nextId) && timer !in old(View(channel)).pending
      ensures View(channel) == var d := old(View(channel));
                               if d.attempts >= MAX_ATTEMPTS then d
                               else d.(attempts := d.attempts + 1, pending := d.pending + {timer}, timeout := Some(timer))
      ensures forall c :: c != channel ==> View(c) == old(View(c))
      ensures delay == if old(View(channel)).attempts >= MAX_ATTEMPTS then None
                       else Some(Delay(old(View(channel)).attempts, jitter))
    {
      timer := browser.nextId;
      var attempts := if channel in reconnectAttempts then reconnectAttempts[channel] else 0;
      if attempts >= MAX_ATTEMPTS {
        return None, timer;
      }
      delay := Some(Delay(attempts, jitter));
      reconnectAttempts := reconnectAttempts[channel := attempts + 1];
      var timeoutId := browser.nextId;
      browser.nextId := timeoutId + 1;
      Added(browser.timeouts, timeoutId, channel);
      browser.timeouts := browser.timeouts[timeoutId := channel];
      reconnectTimeouts := reconnectTimeouts[channel := timeoutId];
    }

    method OnTimeout(channel: string, timer: nat, ok: bool)
      requires Valid() && timer in View(channel).pending
      modifies this`sockets, browser
      ensures Valid() && Enabled(old(View(channel)), Fired(timer, old(browser.nextId), ok))
      ensures View(channel) == Step(old(View(channel)), Fired(timer, old(browser.nextId), ok))
      ensures forall c :: c != channel ==> View(c) == old(View(c))
    {
      Removed(browser.timeouts, timer);
      browser.timeouts := browser.timeouts - {timer};
      Connect(channel, ok);
    }

    // Closing a socket only asks for its close event, which comes later.
    method Disconnect(channel: string)
      requires Valid()
      modifies this, browser
      ensures Valid()
      ensures View(channel) == Step(old(View(channel)), Event.Disconnect)
      ensures forall c :: c != channel ==> View(c) == old(View(c))
    {
      if channel in sockets {
        sockets := sockets - {channel};
      }
      if channel in reconnectTimeouts {
        ClearTimeout(channel, reconnectTimeouts[channel]);
        reconnectTimeouts := reconnectTimeouts - {channel};
      }
      reconnectAttempts := reconnectAttempts - {channel};
      StopHeartbeat(channel);
    }

    // clearTimeout, which has no effect on an id that has fired.
    method ClearTimeout(channel: string, timer: nat)
      requires Valid()
      requires timer in browser.timeouts ==> browser.timeouts[timer] == channel
      modifies browser`timeouts
      ensures Valid() && Of(browser.timeouts, channel) == old(Of(browser.timeouts, channel)) - {timer}
      ensures forall c :: c != channel ==> Of(browser.timeouts, c) == old(Of(browser.timeouts, c))
    {
      Removed(browser.timeouts, timer);
      browser.timeouts := browser.timeouts - {timer};
    }
  }
}
