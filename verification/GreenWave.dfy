/** The emergency green-wave controller: events hold junctions green along their route,
  and the plans of all junctions in use are saved until their last user leaves.
 */
module GreenWave {
  import opened Wrappers
  import opened Sequences

  type Junction = string

  type EventId = string

  datatype Plan = MockPlan

  datatype Event = Event(route: seq<Junction>, currentIndex: nat, active: seq<Junction>)

  datatype Restore = Restore(junction: Junction, plan: Option<Plan>)

  // The controller's dictionaries, and what the environment has been told.
  datatype State = State(events: map<EventId, Event>, plans: map<Junction, Plan>,
                         held: set<Junction>, restores: seq<Restore>)

  function Slice<T>(s: seq<T>, from: nat, to: int): seq<T> {
    if from <= to <= |s| then s[from..to] else if from <= |s| < to then s[from..] else []
  }

  // The junctions held for a vehicle at position i of its route.
  function Window(route: seq<Junction>, i: nat, lookahead: nat): seq<Junction> {
    Slice(route, i, i + lookahead)
  }

  function IndexOf(s: seq<Junction>, x: Junction): (i: nat)
    requires x in s
    ensures i < |s| && s[i] == x && forall k :: 0 <= k < i ==> s[k] != x
  {
    if s[0] == x then 0 else 1 + IndexOf(s[1..], x)
  }

  ghost predicate InUse(events: map<EventId, Event>, j: Junction) {
    exists id :: id in events && j in events[id].route
  }

  function RestoresOf(plans: map<Junction, Plan>, js: seq<Junction>): seq<Restore> {
    seq(|js|, i requires 0 <= i < |js| => Restore(js[i], Lookup(plans, js[i])))
  }

  // ----- The three operations -----

  function PlansActivated(plans: map<Junction, Plan>, route: seq<Junction>): map<Junction, Plan> {
    map j | j in plans.Keys + Elements(route) :: if j in plans then plans[j] else MockPlan
  }

  // On activation all but the last junction of the first window are set.
  function PreEmpted(route: seq<Junction>, lookahead: nat): seq<Junction> {
    var w := Window(route, 0, lookahead);
    if w == [] then [] else w[..|w| - 1]
  }

  function Activated(s: State, id: EventId, route: seq<Junction>, lookahead: nat): State {
    State(s.events[id := Event(route, 0, Window(route, 0, lookahead))],
          PlansActivated(s.plans, route),
          s.held + Elements(PreEmpted(route, lookahead)),
          s.restores)
  }

  // The junctions between the old and the new position.
  function Passed(e: Event, i: nat): seq<Junction> {
    Slice(e.route, e.currentIndex, i)
  }

  predicate Locatable(s: State, id: EventId, j: Junction) {
    id in s.events && j in s.events[id].route
  }

  function Updated(s: State, id: EventId, j: Junction, lookahead: nat): State {
    if !Locatable(s, id, j) then s
    else
      var e := s.events[id];
      var i := IndexOf(e.route, j);
      State(s.events[id := Event(e.route, i, Window(e.route, i, lookahead))],
            s.plans,
            s.held - Elements(Passed(e, i)) + Elements(Window(e.route, i, lookahead)),
            s.restores + RestoresOf(s.plans, Passed(e, i)))
  }

  ghost function PlansDeactivated(s: State, id: EventId): map<Junction, Plan>
    requires id in s.events
  {
    map j | j in s.plans && !(j in s.events[id].route && !InUse(s.events - {id}, j)) :: s.plans[j]
  }

  ghost function Deactivated(s: State, id: EventId): State {
    if id !in s.events then s
    else
      var route := s.events[id].route;
      State(s.events - {id}, PlansDeactivated(s, id), s.held - Elements(route),
            s.restores + RestoresOf(s.plans, route))
  }

  // ----- What they do, junction by junction -----

  // An activation holds the junctions of the first look-ahead, but for the last of them.
  lemma ActivationHolds(s: State, id: EventId, route: seq<Junction>, lookahead: nat, x: Junction)
    ensures x in Activated(s, id, route, lookahead).held <==>
              x in s.held || exists i :: 0 <= i && i + 1 < |route| && i + 1 < lookahead && route[i] == x
  {
    var w, held := Window(route, 0, lookahead), PreEmpted(route, lookahead);
    assert forall i :: 0 <= i < |w| ==> w[i] == route[i];
    assert forall i :: 0 <= i < |held| ==> held[i] == route[i];
    forall i | 0 <= i && i + 1 < |route| && i + 1 < lookahead && route[i] == x ensures x in held {
      assert held[i] == route[i];
    }
  }

  // The event starts at its first junction, with the first junctions as its window; all
  // junctions of the route have plans, and no plan, restore or other event changes.
  lemma ActivationMeans(s: State, id: EventId, route: seq<Junction>, lookahead: nat)
    ensures var t := Activated(s, id, route, lookahead);
            && t.restores == s.restores
            && t.plans.Keys == s.plans.Keys + (set x | x in route) && (forall x :: x in s.plans ==> t.plans[x] == s.plans[x])
            && t.events.Keys == s.events.Keys + {id} && (forall k :: k in s.events && k != id ==> t.events[k] == s.events[k])
            && t.events[id].route == route && t.events[id].currentIndex == 0
            && |t.events[id].active| == (if lookahead < |route| then lookahead else |route|)
            && (forall k :: 0 <= k < |t.events[id].active| ==> t.events[id].active[k] == route[k])
  {
  }

  lemma WindowAt(route: seq<Junction>, i: nat, lookahead: nat)
    requires i <= |route|
    ensures var w := Window(route, i, lookahead);
            && |w| == (if i + lookahead < |route| then lookahead else |route| - i)
            && forall k :: 0 <= k < |w| ==> w[k] == route[i + k]
  {
  }

  // i is the place of the reported junction: the event stands there, with the next junctions
  // as its window; those passed are restored in order, each with its saved plan, and those of
  // the window held.
  lemma ReportMeans(s: State, id: EventId, j: Junction, lookahead: nat) returns (i: nat)
    requires Locatable(s, id, j)
    ensures i < |s.events[id].route| && s.events[id].route[i] == j && forall k :: 0 <= k < i ==> s.events[id].route[k] != j
    ensures var e, t := s.events[id], Updated(s, id, j, lookahead);
            && t.plans == s.plans && t.events.Keys == s.events.Keys
            && (forall k :: k in s.events && k != id ==> t.events[k] == s.events[k])
            && t.events[id].route == e.route && t.events[id].currentIndex == i
            && |t.events[id].active| == (if i + lookahead < |e.route| then lookahead else |e.route| - i)
            && (forall k :: 0 <= k < |t.events[id].active| ==> t.events[id].active[k] == e.route[i + k])
    ensures var e, t := s.events[id], Updated(s, id, j, lookahead);
            && |t.restores| == |s.restores| + (if e.currentIndex < i then i - e.currentIndex else 0)
            && t.restores[..|s.restores|] == s.restores
            && forall k :: |s.restores| <= k < |t.restores| ==>
                 var x := e.route[e.currentIndex + k - |s.restores|];
                 t.restores[k] == Restore(x, if x in s.plans then Some(s.plans[x]) else None)
  {
    var e, t := s.events[id], Updated(s, id, j, lookahead);
    i := IndexOf(e.route, j);
    WindowAt(e.route, i, lookahead);
    PassedAt(e, i);
    RestoresAppended(s, Passed(e, i), t.restores);
  }

  lemma PassedAt(e: Event, i: nat)
    requires i <= |e.route|
    ensures |Passed(e, i)| == if e.currentIndex < i then i - e.currentIndex else 0
    ensures forall k :: 0 <= k < |Passed(e, i)| ==> Passed(e, i)[k] == e.route[e.currentIndex + k]
  {
  }

  lemma RestoresAppended(s: State, js: seq<Junction>, restores: seq<Restore>)
    requires restores == s.restores + RestoresOf(s.plans, js)
    ensures |restores| == |s.restores| + |js| && restores[..|s.restores|] == s.restores
    ensures forall k :: |s.restores| <= k < |restores| ==>
              var x := js[k - |s.restores|];
              restores[k] == Restore(x, if x in s.plans then Some(s.plans[x]) else None)
  {
  }

  lemma ReportHolds(s: State, id: EventId, j: Junction, lookahead: nat, i: nat, x: Junction)
    requires Locatable(s, id, j) && i < |s.events[id].route| && s.events[id].route[i] == j
    requires forall k :: 0 <= k < i ==> s.events[id].route[k] != j
    ensures var e, t := s.events[id], Updated(s, id, j, lookahead);
            x in t.held <==>
              || (exists k :: i <= k < |e.route| && k < i + lookahead && e.route[k] == x)
              || (x in s.held && !exists k :: e.currentIndex <= k < i && e.route[k] == x)
  {
    var e := s.events[id];
    assert IndexOf(e.route, j) == i;
    var w, passed := Window(e.route, i, lookahead), Passed(e, i);
    WindowAt(e.route, i, lookahead);
    PassedAt(e, i);
    forall k | i <= k < |e.route| && k < i + lookahead && e.route[k] == x ensures x in w {
      assert w[k - i] == x;
    }
    forall k | e.currentIndex <= k < i && e.route[k] == x ensures x in passed {
      assert passed[k - e.currentIndex] == x;
    }
    if x in w {
      var k :| 0 <= k < |w| && w[k] == x;
      assert e.route[i + k] == x;
    }
    if x in passed {
      var k :| 0 <= k < |passed| && passed[k] == x;
      assert e.route[e.currentIndex + k] == x;
    }
  }

  // A deactivation removes the event and restores its junctions in the order of the route.
  lemma DeactivationMeans(s: State, id: EventId, x: Junction)
    requires id in s.events
    ensures var route, t := s.events[id].route, Deactivated(s, id);
            && t.events.Keys == s.events.Keys - {id} && (forall k :: k in t.events ==> t.events[k] == s.events[k])
            && (x in t.held <==> x in s.held && x !in route)
            && |t.restores| == |s.restores| + |route| && t.restores[..|s.restores|] == s.restores
            && forall k :: |s.restores| <= k < |t.restores| ==>
                 var y := route[k - |s.restores|];
                 t.restores[k] == Restore(y, if y in s.plans then Some(s.plans[y]) else None)
    ensures var t := Deactivated(s, id);
            && (x in t.plans <==> x in s.plans && (x !in s.events[id].route || exists k :: k in t.events && x in t.events[k].route))
            && (x in t.plans ==> t.plans[x] == s.plans[x])
  {
    RestoresAppended(s, s.events[id].route, Deactivated(s, id).restores);
  }

  // ----- Saved plans -----

  // Exactly the junctions of active routes have a saved plan.
  ghost predicate PlansMatch(s: State) {
    forall j :: j in s.plans <==> InUse(s.events, j)
  }

  // At least those junctions do, and every restore so far was given a plan.
  ghost predicate PlansCover(s: State) {
    && (forall j :: InUse(s.events, j) ==> j in s.plans)
    && (forall r :: r in s.restores ==> r.plan.Some?)
  }

  lemma InUseActivated(s: State, id: EventId, route: seq<Junction>, lookahead: nat, j: Junction)
    ensures InUse(Activated(s, id, route, lookahead).events, j) <==> j in route || InUse(s.events - {id}, j)
  {
    var after := Activated(s, id, route, lookahead).events;
    if j in route {
      assert id in after && j in after[id].route;
    }
    if InUse(s.events - {id}, j) {
      var k :| k in s.events - {id} && j in (s.events - {id})[k].route;
      assert k in after && j in after[k].route;
    }
    if InUse(after, j) && j !in route {
      var k :| k in after && j in after[k].route;
      assert k in s.events - {id} && j in (s.events - {id})[k].route;
    }
  }

  lemma InUseWithout(events: map<EventId, Event>, id: EventId, j: Junction)
    ensures InUse(events, j) <==> InUse(events - {id}, j) || (id in events && j in events[id].route)
  {
    if InUse(events, j) {
      var k :| k in events && j in events[k].route;
      assert k != id ==> k in events - {id};
    }
    if InUse(events - {id}, j) {
      var k :| k in events - {id} && j in (events - {id})[k].route;
      assert k in events && j in events[k].route;
    }
  }

  lemma InUseUpdated(s: State, id: EventId, j: Junction, lookahead: nat, x: Junction)
    ensures InUse(Updated(s, id, j, lookahead).events, x) <==> InUse(s.events, x)
  {
    var after := Updated(s, id, j, lookahead).events;
    assert forall k :: k in after <==> k in s.events;
    assert forall k :: k in after ==> after[k].route == s.events[k].route;
  }

  // Activation keeps the plans exact if and only if it replaces no event, or one whose
  // junctions all stay in use.
  lemma ActivateKeepsPlansIff(s: State, id: EventId, route: seq<Junction>, lookahead: nat)
    requires PlansMatch(s)
    ensures PlansMatch(Activated(s, id, route, lookahead)) <==>
              (id in s.events ==> forall j :: j in s.events[id].route ==> j in route || InUse(s.events - {id}, j))
  {
    var t := Activated(s, id, route, lookahead);
    forall j ensures InUse(t.events, j) <==> j in route || InUse(s.events - {id}, j) {
      InUseActivated(s, id, route, lookahead, j);
    }
    forall j ensures InUse(s.events, j) <==> InUse(s.events - {id}, j) || (id in s.events && j in s.events[id].route) {
      InUseWithout(s.events, id, j);
    }
    assert forall j :: j in t.plans <==> j in s.plans || j in route;
    if PlansMatch(t) && id in s.events {
      forall j | j in s.events[id].route ensures j in route || InUse(s.events - {id}, j) {
        assert j in t.plans;
      }
    }
  }

  lemma UpdateKeepsPlans(s: State, id: EventId, j: Junction, lookahead: nat)
    ensures PlansMatch(s) ==> PlansMatch(Updated(s, id, j, lookahead))
    ensures PlansCover(s) ==> PlansCover(Updated(s, id, j, lookahead))
  {
    var t := Updated(s, id, j, lookahead);
    forall x ensures InUse(t.events, x) <==> InUse(s.events, x) {
      InUseUpdated(s, id, j, lookahead, x);
    }
    if Locatable(s, id, j) && PlansCover(s) {
      var e := s.events[id];
      RestoresHavePlans(s, id, Passed(e, IndexOf(e.route, j)));
    }
  }

  lemma RestoresHavePlans(s: State, id: EventId, js: seq<Junction>)
    requires PlansCover(s) && id in s.events && forall j :: j in js ==> j in s.events[id].route
    ensures forall r :: r in RestoresOf(s.plans, js) ==> r.plan.Some?
  {
  }

  lemma DeactivateKeepsPlans(s: State, id: EventId)
    ensures PlansMatch(s) ==> PlansMatch(Deactivated(s, id))
    ensures PlansCover(s) ==> PlansCover(Deactivated(s, id))
  {
    if id in s.events {
      forall j ensures InUse(s.events, j) <==> InUse(s.events - {id}, j) || j in s.events[id].route {
        InUseWithout(s.events, id, j);
      }
      if PlansCover(s) {
        RestoresHavePlans(s, id, s.events[id].route);
      }
    }
  }

  lemma ActivateKeepsCover(s: State, id: EventId, route: seq<Junction>, lookahead: nat)
    requires PlansCover(s)
    ensures PlansCover(Activated(s, id, route, lookahead))
  {
  }

  // ----- All runs -----

  datatype Op = Activate(id: EventId, route: seq<Junction>) | Update(id: EventId, junction: Junction) | Deactivate(id: EventId)

  ghost function Step(s: State, op: Op, lookahead: nat): State {
    match op
    case Activate(id, route) => Activated(s, id, route, lookahead)
    case Update(id, j) => Updated(s, id, j, lookahead)
    case Deactivate(id) => Deactivated(s, id)
  }

  ghost function After(ops: seq<Op>, lookahead: nat): State {
    if ops == [] then State(map[], map[], {}, [])
    else Step(After(ops[..|ops| - 1], lookahead), ops[|ops| - 1], lookahead)
  }

  lemma AfterOneMore(before: seq<Op>, op: Op, ops: seq<Op>, lookahead: nat)
    requires ops == before + [op]
    ensures After(ops, lookahead) == Step(After(before, lookahead), op, lookahead)
  {
    assert ops[..|ops| - 1] == before;
  }

  // In every run a junction in use keeps its saved plan, and no restore lacks one.
  lemma {:induction false} EveryRunCovers(ops: seq<Op>, lookahead: nat)
    ensures PlansCover(After(ops, lookahead))
  {
    if ops != [] {
      var s, op := After(ops[..|ops| - 1], lookahead), ops[|ops| - 1];
      EveryRunCovers(ops[..|ops| - 1], lookahead);
      match op
      case Activate(id, route) => ActivateKeepsCover(s, id, route, lookahead);
      case Update(id, j) => UpdateKeepsPlans(s, id, j, lookahead);
      case Deactivate(id) => DeactivateKeepsPlans(s, id);
    }
  }

  // No event id is activated twice, as for the random ids of the API.
  ghost predicate FreshIds(ops: seq<Op>) {
    forall i, k :: 0 <= i < k < |ops| && ops[i].Activate? && ops[k].Activate? ==> ops[i].id != ops[k].id
  }

  // With fresh ids, the saved plans are exactly those of the junctions in use.
  lemma {:induction false} FreshRunsMatch(ops: seq<Op>, lookahead: nat)
    requires FreshIds(ops)
    ensures PlansMatch(After(ops, lookahead))
    ensures forall id :: id in After(ops, lookahead).events ==> exists i :: 0 <= i < |ops| && ops[i].Activate? && ops[i].id == id
  {
    if ops != [] {
      var before, op := ops[..|ops| - 1], ops[|ops| - 1];
      var s := After(before, lookahead);
      FreshRunsMatch(before, lookahead);
      match op {
        case Activate(id, route) => ActivateKeepsPlansIff(s, id, route, lookahead);
        case Update(id, j) => UpdateKeepsPlans(s, id, j, lookahead);
        case Deactivate(id) => DeactivateKeepsPlans(s, id);
      }
      forall id | id in Step(s, op, lookahead).events ensures exists i :: 0 <= i < |ops| && ops[i].Activate? && ops[i].id == id {
        if id in s.events {
          var i :| 0 <= i < |before| && before[i].Activate? && before[i].id == id;
          assert ops[i].Activate? && ops[i].id == id;
        } else {
          assert op.Activate? && op.id == id;
        }
      }
    }
  }

  // ----- Held junctions -----

  // An event's position and window belong to its route.
  ghost predicate InWindow(e: Event, lookahead: nat) {
    && Distinct(e.route)
    && e.currentIndex <= |e.route|
    && e.active == Window(e.route, e.currentIndex, lookahead)
  }

  ghost predicate Apart(events: map<EventId, Event>) {
    forall a, b :: a in events && b in events && a != b ==> Elements(events[a].route) !! Elements(events[b].route)
  }

  // Only windows are held, and the windows of events that have reported are held whole.
  ghost predicate HeldInWindows(s: State, reported: set<EventId>, lookahead: nat) {
    && (forall id :: id in s.events ==> InWindow(s.events[id], lookahead))
    && Apart(s.events)
    && (forall j :: j in s.held ==> exists id :: id in s.events && j in s.events[id].active)
    && (forall id :: id in reported ==> id in s.events && Elements(s.events[id].active) <= s.held)
  }

  // New events share no junction with running ones, and vehicles report in order.
  ghost predicate Orderly(s: State, op: Op) {
    match op
    case Activate(id, route) =>
      && id !in s.events && Distinct(route)
      && forall k :: k in s.events ==> Elements(s.events[k].route) !! Elements(route)
    case Update(id, j) => Locatable(s, id, j) ==> s.events[id].currentIndex <= IndexOf(s.events[id].route, j)
    case Deactivate(id) => true
  }

  ghost function Reported(s: State, reported: set<EventId>, op: Op): set<EventId> {
    match op
    case Activate(id, route) => reported - {id}
    case Update(id, j) => if Locatable(s, id, j) then reported + {id} else reported
    case Deactivate(id) => reported - {id}
  }

  lemma WindowInRoute(route: seq<Junction>, i: nat, lookahead: nat)
    ensures forall j :: j in Window(route, i, lookahead) <==>
              exists k :: 0 <= k < |route| && i <= k < i + lookahead && route[k] == j
  {
  }

  // What is left of the old window after passing lies in the new one.
  lemma WindowSlides(e: Event, i: nat, lookahead: nat)
    requires e.currentIndex <= i <= |e.route|
    ensures Elements(Window(e.route, e.currentIndex, lookahead)) - Elements(Passed(e, i))
              <= Elements(Window(e.route, i, lookahead))
  {
  }

  lemma WindowAndPassedOnRoute(e: Event, i: nat, lookahead: nat)
    requires i <= |e.route|
    ensures Elements(Window(e.route, i, lookahead)) <= Elements(e.route)
    ensures Elements(Passed(e, i)) <= Elements(e.route)
    ensures Elements(PreEmpted(e.route, lookahead)) <= Elements(Window(e.route, 0, lookahead))
  {
  }

  lemma ActivateKeepsHeld(s: State, reported: set<EventId>, id: EventId, route: seq<Junction>, lookahead: nat)
    requires HeldInWindows(s, reported, lookahead) && Orderly(s, Activate(id, route))
    ensures HeldInWindows(Activated(s, id, route, lookahead), reported - {id}, lookahead)
  {
    var t := Activated(s, id, route, lookahead);
    WindowAndPassedOnRoute(Event(route, 0, []), 0, lookahead);
    forall j | j in t.held ensures exists k :: k in t.events && j in t.events[k].active {
      if j in s.held {
        var k :| k in s.events && j in s.events[k].active;
        assert k in t.events && j in t.events[k].active;
      } else {
        assert id in t.events && j in t.events[id].active;
      }
    }
  }

  lemma UpdateHoldsWindows(s: State, reported: set<EventId>, id: EventId, j: Junction, lookahead: nat, x: Junction)
    requires HeldInWindows(s, reported, lookahead) && Orderly(s, Update(id, j)) && Locatable(s, id, j)
    requires x in Updated(s, id, j, lookahead).held
    ensures exists k :: k in Updated(s, id, j, lookahead).events && x in Updated(s, id, j, lookahead).events[k].active
  {
    var e := s.events[id];
    var i := IndexOf(e.route, j);
    var t := Updated(s, id, j, lookahead);
    WindowSlides(e, i, lookahead);
    if x in Window(e.route, i, lookahead) {
      assert id in t.events && x in t.events[id].active;
    } else {
      var k :| k in s.events && x in s.events[k].active;
      assert k != id;
      assert k in t.events && x in t.events[k].active;
    }
  }

  lemma UpdateHoldsReported(s: State, reported: set<EventId>, id: EventId, j: Junction, lookahead: nat, k: EventId)
    requires HeldInWindows(s, reported, lookahead) && Locatable(s, id, j) && k in reported + {id}
    ensures var t := Updated(s, id, j, lookahead);
            k in t.events && Elements(t.events[k].active) <= t.held
  {
    if k != id {
      var e, f := s.events[id], s.events[k];
      WindowAndPassedOnRoute(e, IndexOf(e.route, j), lookahead);
      WindowAndPassedOnRoute(f, f.currentIndex, lookahead);
    }
  }

  lemma UpdateKeepsHeld(s: State, reported: set<EventId>, id: EventId, j: Junction, lookahead: nat)
    requires HeldInWindows(s, reported, lookahead) && Orderly(s, Update(id, j)) && Locatable(s, id, j)
    ensures HeldInWindows(Updated(s, id, j, lookahead), reported + {id}, lookahead)
  {
    var t := Updated(s, id, j, lookahead);
    forall x | x in t.held ensures exists k :: k in t.events && x in t.events[k].active {
      UpdateHoldsWindows(s, reported, id, j, lookahead, x);
    }
    forall k | k in reported + {id} ensures k in t.events && Elements(t.events[k].active) <= t.held {
      UpdateHoldsReported(s, reported, id, j, lookahead, k);
    }
  }

  lemma DeactivateKeepsHeld(s: State, reported: set<EventId>, id: EventId, lookahead: nat)
    requires HeldInWindows(s, reported, lookahead)
    ensures HeldInWindows(Deactivated(s, id), reported - {id}, lookahead)
  {
    if id in s.events {
      var t := Deactivated(s, id);
      forall k | k in s.events ensures Elements(s.events[k].active) <= Elements(s.events[k].route) {
        WindowAndPassedOnRoute(s.events[k], s.events[k].currentIndex, lookahead);
      }
      forall x | x in t.held ensures exists k :: k in t.events && x in t.events[k].active {
        var k :| k in s.events && x in s.events[k].active;
        assert k != id;
        assert k in t.events && x in t.events[k].active;
      }
    }
  }

  ghost predicate OrderlyRun(ops: seq<Op>, lookahead: nat) {
    ops != [] ==>
      var before, op := ops[..|ops| - 1], ops[|ops| - 1];
      OrderlyRun(before, lookahead) && Orderly(After(before, lookahead), op)
  }

  ghost function ReportedAfter(ops: seq<Op>, lookahead: nat): set<EventId> {
    if ops == [] then {}
    else
      var before, op := ops[..|ops| - 1], ops[|ops| - 1];
      Reported(After(before, lookahead), ReportedAfter(before, lookahead), op)
  }

  lemma {:induction false} OrderlyRunHolds(ops: seq<Op>, lookahead: nat)
    requires OrderlyRun(ops, lookahead)
    ensures HeldInWindows(After(ops, lookahead), ReportedAfter(ops, lookahead), lookahead)
  {
    if ops != [] {
      var before, op := ops[..|ops| - 1], ops[|ops| - 1];
      var s, reported := After(before, lookahead), ReportedAfter(before, lookahead);
      OrderlyRunHolds(before, lookahead);
      match op
      case Activate(id, route) => ActivateKeepsHeld(s, reported, id, route, lookahead);
      case Update(id, j) =>
        if Locatable(s, id, j) {
          UpdateKeepsHeld(s, reported, id, j, lookahead);
        }
      case Deactivate(id) => DeactivateKeepsHeld(s, reported, id, lookahead);
    }
  }

  // In an orderly run, the junctions of a route that are held lie in the event's window,
  // and once the vehicle has reported they are exactly that window.
  lemma HeldIsWindow(ops: seq<Op>, lookahead: nat, id: EventId)
    requires OrderlyRun(ops, lookahead) && id in After(ops, lookahead).events
    ensures var s, e := After(ops, lookahead), After(ops, lookahead).events[id];
            && e.active == Window(e.route, e.currentIndex, lookahead)
            && s.held * Elements(e.route) <= Elements(e.active)
            && (id in ReportedAfter(ops, lookahead) ==> s.held * Elements(e.route) == Elements(e.active))
  {
    OrderlyRunHolds(ops, lookahead);
    HeldOnRoute(After(ops, lookahead), ReportedAfter(ops, lookahead), lookahead, id);
  }

  lemma HeldOnRoute(s: State, reported: set<EventId>, lookahead: nat, id: EventId)
    requires HeldInWindows(s, reported, lookahead) && id in s.events
    ensures var e := s.events[id];
            && s.held * Elements(e.route) <= Elements(e.active) <= Elements(e.route)
            && (id in reported ==> s.held * Elements(e.route) == Elements(e.active))
  {
    var e := s.events[id];
    WindowAndPassedOnRoute(e, e.currentIndex, lookahead);
    forall x | x in s.held && x in e.route ensures x in e.active {
      var k :| k in s.events && x in s.events[k].active;
      WindowAndPassedOnRoute(s.events[k], s.events[k].currentIndex, lookahead);
      assert x in Elements(s.events[k].route) && x in Elements(e.route);
    }
  }

  // After a deactivation none of the route's junctions is held, and the windows of other
  // events stay held exactly if they avoid that route.
  lemma DeactivateReleases(s: State, id: EventId, other: EventId)
    requires id in s.events && other in s.events && other != id
    requires Elements(s.events[other].active) <= s.held
    ensures Deactivated(s, id).held !! Elements(s.events[id].route)
    ensures Elements(Deactivated(s, id).events[other].active) <= Deactivated(s, id).held <==>
              Elements(s.events[other].active) !! Elements(s.events[id].route)
  {
  }

  // A report leaves another event's window held exactly if what it passes of that window
  // is in its own new window.
  lemma ReportReleases(s: State, id: EventId, j: Junction, lookahead: nat, other: EventId)
    requires Locatable(s, id, j) && other in s.events && other != id
    requires Elements(s.events[other].active) <= s.held
    ensures var e, shared := s.events[id], Elements(s.events[other].active);
            var i, t := IndexOf(e.route, j), Updated(s, id, j, lookahead);
            t.events[other] == s.events[other]
            && (shared <= t.held <==> shared * Elements(Passed(e, i)) <= Elements(Window(e.route, i, lookahead)))
  {
  }

  // ----- Shared junctions -----

  ghost predicate HasWindow(s: State, id: EventId) {
    id in s.events && Elements(s.events[id].active) <= s.held
  }

  // An operation takes a junction from an event if it is the report of another event that
  // passes a junction of its window without holding it again, or the deactivation of
  // another event whose route meets its window.
  ghost predicate Takes(s: State, op: Op, id: EventId, lookahead: nat) {
    && id in s.events && op.id != id && op.id in s.events
    && var window, e := Elements(s.events[id].active), s.events[op.id];
       match op
       case Activate(_, _) => false
       case Update(_, j) =>
         && j in e.route
         && var i := IndexOf(e.route, j);
            !(window * Elements(Passed(e, i)) <= Elements(Window(e.route, i, lookahead)))
       case Deactivate(_) => !(window !! Elements(e.route))
  }

  lemma TakesIff(s: State, op: Op, id: EventId, lookahead: nat)
    requires HasWindow(s, id) && (op.id == id ==> op.Update?)
    ensures HasWindow(Step(s, op, lookahead), id) <==> !Takes(s, op, id, lookahead)
  {
    if op.id != id && op.id in s.events {
      match op
      case Activate(_, _) =>
      case Update(other, j) =>
        if Locatable(s, other, j) {
          ReportReleases(s, other, j, lookahead, id);
        }
      case Deactivate(other) => DeactivateReleases(s, other, id);
    }
  }

  // The operation at n - 1 is a report of the event, which is not deactivated later.
  ghost predicate ReportedAt(ops: seq<Op>, n: nat, id: EventId, lookahead: nat) {
    && 0 < n <= |ops|
    && ops[n - 1].Update? && ops[n - 1].id == id && Locatable(After(ops[..n - 1], lookahead), id, ops[n - 1].junction)
    && forall m :: n <= m < |ops| ==> ops[m] != Deactivate(id)
  }

  ghost predicate WindowHeldFrom(ops: seq<Op>, n: nat, id: EventId, lookahead: nat) {
    forall m :: n <= m <= |ops| ==> HasWindow(After(ops[..m], lookahead), id)
  }

  ghost predicate NothingTakenFrom(ops: seq<Op>, n: nat, id: EventId, lookahead: nat) {
    forall m :: n <= m < |ops| ==> !Takes(After(ops[..m], lookahead), ops[m], id, lookahead)
  }

  lemma OneMoreOp(before: seq<Op>, op: Op, n: nat, id: EventId, lookahead: nat)
    requires n <= |before|
    ensures var ops := before + [op];
            && ops[..|before|] == before
            && After(ops, lookahead) == Step(After(before, lookahead), op, lookahead)
    ensures WindowHeldFrom(before + [op], n, id, lookahead) <==>
              WindowHeldFrom(before, n, id, lookahead) && HasWindow(Step(After(before, lookahead), op, lookahead), id)
    ensures NothingTakenFrom(before + [op], n, id, lookahead) <==>
              NothingTakenFrom(before, n, id, lookahead) && !Takes(After(before, lookahead), op, id, lookahead)
  {
    var ops := before + [op];
    assert ops[..|before|] == before && ops[..|ops|] == ops;
    assert forall m :: 0 <= m <= |before| ==> ops[..m] == before[..m];
  }

  lemma JustReported(ops: seq<Op>, id: EventId, lookahead: nat)
    requires ReportedAt(ops, |ops|, id, lookahead)
    ensures WindowHeldFrom(ops, |ops|, id, lookahead)
  {
    var n := |ops|;
    assert ops[..n] == ops;
    OwnReportHolds(After(ops[..n - 1], lookahead), id, ops[n - 1].junction, lookahead);
  }

  lemma ReportedBefore(ops: seq<Op>, before: seq<Op>, n: nat, id: EventId, lookahead: nat)
    requires FreshIds(ops) && ReportedAt(ops, n, id, lookahead) && n < |ops| && before == ops[..|ops| - 1]
    ensures FreshIds(before) && ReportedAt(before, n, id, lookahead)
    ensures ops[|ops| - 1].id == id ==> ops[|ops| - 1].Update?
  {
    assert before[..n - 1] == ops[..n - 1];
    NotActivatedAgain(ops, n, id, lookahead);
  }

  // In every run with fresh ids, routes overlapping or not, the window of an event that has
  // reported stays held exactly as long as no operation takes a junction from it.
  lemma {:induction false} WindowHeldIff(ops: seq<Op>, n: nat, id: EventId, lookahead: nat)
    requires FreshIds(ops) && ReportedAt(ops, n, id, lookahead)
    ensures WindowHeldFrom(ops, n, id, lookahead) <==> NothingTakenFrom(ops, n, id, lookahead)
  {
    if n == |ops| {
      JustReported(ops, id, lookahead);
    } else {
      var before, op := ops[..|ops| - 1], ops[|ops| - 1];
      assert ops == before + [op];
      ReportedBefore(ops, before, n, id, lookahead);
      WindowHeldIff(before, n, id, lookahead);
      OneMoreOp(before, op, n, id, lookahead);
      if WindowHeldFrom(before, n, id, lookahead) {
        LastWindow(before, n, id, lookahead);
        TakesIff(After(before, lookahead), op, id, lookahead);
      }
    }
  }

  lemma LastWindow(ops: seq<Op>, n: nat, id: EventId, lookahead: nat)
    requires n <= |ops| && WindowHeldFrom(ops, n, id, lookahead)
    ensures HasWindow(After(ops, lookahead), id)
  {
    assert ops[..|ops|] == ops;
  }

  lemma OwnReportHolds(s: State, id: EventId, j: Junction, lookahead: nat)
    requires Locatable(s, id, j)
    ensures HasWindow(Updated(s, id, j, lookahead), id)
  {
  }

  lemma NotActivatedAgain(ops: seq<Op>, n: nat, id: EventId, lookahead: nat)
    requires FreshIds(ops) && ReportedAt(ops, n, id, lookahead)
    ensures forall m :: n <= m < |ops| && ops[m].id == id ==> ops[m].Update?
  {
    FreshRunsMatch(ops[..n - 1], lookahead);
  }

  // The junctions an operation holds in the end, and those it releases.
  ghost function Holds(s: State, op: Op, lookahead: nat): set<Junction> {
    match op
    case Activate(_, route) => Elements(PreEmpted(route, lookahead))
    case Update(id, j) =>
      if Locatable(s, id, j) then Elements(Window(s.events[id].route, IndexOf(s.events[id].route, j), lookahead)) else {}
    case Deactivate(_) => {}
  }

  ghost function Releases(s: State, op: Op, lookahead: nat): set<Junction> {
    match op
    case Activate(_, _) => {}
    case Update(id, j) =>
      if Locatable(s, id, j) then
        Elements(Passed(s.events[id], IndexOf(s.events[id].route, j))) - Holds(s, op, lookahead)
      else {}
    case Deactivate(id) => if id in s.events then Elements(s.events[id].route) else {}
  }

  lemma HeldStep(s: State, op: Op, lookahead: nat)
    ensures Step(s, op, lookahead).held == s.held - Releases(s, op, lookahead) + Holds(s, op, lookahead)
  {
  }

  // The operation at k holds the junction, and none later releases it.
  ghost predicate LastHeldAt(ops: seq<Op>, k: nat, lookahead: nat, x: Junction) {
    && k < |ops| && x in Holds(After(ops[..k], lookahead), ops[k], lookahead)
    && forall m :: k < m < |ops| ==> x !in Releases(After(ops[..m], lookahead), ops[m], lookahead)
  }

  lemma LastHeldOneMore(before: seq<Op>, op: Op, k: nat, lookahead: nat, x: Junction)
    requires k < |before|
    ensures LastHeldAt(before + [op], k, lookahead, x) <==>
              LastHeldAt(before, k, lookahead, x) && x !in Releases(After(before, lookahead), op, lookahead)
  {
    var ops := before + [op];
    assert ops[..|before|] == before;
    assert forall m :: 0 <= m <= |before| ==> ops[..m] == before[..m];
  }

  // Whatever the events and their routes, a junction is held if and only if some operation
  // held it and none has released it since.
  lemma {:induction false} LastTouchDecides(ops: seq<Op>, lookahead: nat, x: Junction)
    ensures x in After(ops, lookahead).held <==> exists k :: LastHeldAt(ops, k, lookahead, x)
  {
    if ops != [] {
      var last := |ops| - 1;
      var before, op := ops[..last], ops[last];
      assert ops == before + [op];
      LastTouchDecides(before, lookahead, x);
      HeldStep(After(before, lookahead), op, lookahead);
      forall k | 0 <= k < last
        ensures LastHeldAt(ops, k, lookahead, x) <==>
                LastHeldAt(before, k, lookahead, x) && x !in Releases(After(before, lookahead), op, lookahead)
      {
        LastHeldOneMore(before, op, k, lookahead, x);
      }
      assert LastHeldAt(ops, last, lookahead, x) <==> x in Holds(After(before, lookahead), op, lookahead);
    }
  }

  // From an exact window, a report leaves an exact window if and only if it is in order,
  // or the new window reaches the end of the route, or nothing is ever held.
  lemma ReportKeepsWindowIff(e: Event, i: nat, lookahead: nat, held: set<Junction>)
    requires Distinct(e.route) && e.currentIndex < |e.route| && i < |e.route|
    requires held * Elements(e.route) == Elements(Window(e.route, e.currentIndex, lookahead))
    ensures (held - Elements(Passed(e, i)) + Elements(Window(e.route, i, lookahead))) * Elements(e.route)
              == Elements(Window(e.route, i, lookahead))
        <==> e.currentIndex <= i || |e.route| <= i + lookahead || lookahead == 0
  {
    var route, now := Elements(e.route), Elements(Window(e.route, i, lookahead));
    var before := Elements(Window(e.route, e.currentIndex, lookahead));
    WindowAndPassedOnRoute(e, i, lookahead);
    WindowInRoute(e.route, i, lookahead);
    WindowInRoute(e.route, e.currentIndex, lookahead);
    if e.currentIndex <= i {
      WindowSlides(e, i, lookahead);
    } else {
      assert Passed(e, i) == [];
      assert (held - {} + now) * route == before + now;
      if i + lookahead < |e.route| && lookahead > 0 {
        var k := if e.currentIndex + lookahead <= |e.route| then e.currentIndex + lookahead - 1 else |e.route| - 1;
        assert e.route[k] in before && e.route[k] in held;
        assert e.route[k] !in now;
      } else {
        assert before <= now;
      }
    }
  }

  // ----- Reports in any order, on separate routes -----

  // New events share no junction with running ones; nothing is asked of reports.
  ghost predicate Separate(s: State, op: Op) {
    op.Activate? ==> Orderly(s, op)
  }

  ghost predicate SeparateRun(ops: seq<Op>, lookahead: nat) {
    ops != [] ==>
      var before, op := ops[..|ops| - 1], ops[|ops| - 1];
      SeparateRun(before, lookahead) && Separate(After(before, lookahead), op)
  }

  ghost predicate HeldOnRoutes(s: State) {
    forall j :: j in s.held ==> InUse(s.events, j)
  }

  // An event that has not reported stands at the start of its route.
  ghost predicate AtStart(s: State, id: EventId, lookahead: nat) {
    && id in s.events && s.events[id].currentIndex == 0
    && s.held * Elements(s.events[id].route) <= Elements(Window(s.events[id].route, 0, lookahead))
  }

  ghost predicate OnSeparateRoutes(s: State, reported: set<EventId>, lookahead: nat) {
    && (forall id :: id in s.events ==> InWindow(s.events[id], lookahead))
    && Apart(s.events) && HeldOnRoutes(s)
    && (forall id :: id in s.events && id !in reported ==> AtStart(s, id, lookahead))
    && (forall id :: id in reported ==> id in s.events && s.events[id].currentIndex < |s.events[id].route|)
  }

  ghost predicate HoldsExactly(s: State, id: EventId) {
    id in s.events && s.held * Elements(s.events[id].route) == Elements(s.events[id].active)
  }

  // Operations on other events do not touch the junctions of an event's route.
  lemma OthersKeepOut(s: State, reported: set<EventId>, op: Op, id: EventId, lookahead: nat)
    requires OnSeparateRoutes(s, reported, lookahead) && Separate(s, op) && id in s.events && op.id != id
    ensures var t := Step(s, op, lookahead);
            && id in t.events && t.events[id] == s.events[id]
            && t.held * Elements(s.events[id].route) == s.held * Elements(s.events[id].route)
  {
    match op
    case Activate(_, route) => WindowAndPassedOnRoute(Event(route, 0, []), 0, lookahead);
    case Update(other, j) =>
      if Locatable(s, other, j) {
        var e := s.events[other];
        WindowAndPassedOnRoute(e, IndexOf(e.route, j), lookahead);
      }
    case Deactivate(_) =>
  }

  lemma HeldStaysOnRoutes(s: State, reported: set<EventId>, op: Op, lookahead: nat)
    requires OnSeparateRoutes(s, reported, lookahead) && Separate(s, op)
    ensures HeldOnRoutes(Step(s, op, lookahead))
  {
    var t := Step(s, op, lookahead);
    forall j | j in t.held ensures InUse(t.events, j) {
      match op {
        case Activate(id, route) =>
          WindowAndPassedOnRoute(Event(route, 0, []), 0, lookahead);
          InUseActivated(s, id, route, lookahead, j);
          InUseWithout(s.events, id, j);
        case Update(id, x) =>
          InUseUpdated(s, id, x, lookahead, j);
          if Locatable(s, id, x) {
            WindowAndPassedOnRoute(s.events[id], IndexOf(s.events[id].route, x), lookahead);
          }
        case Deactivate(id) => InUseWithout(s.events, id, j);
      }
    }
  }

  lemma ActivatedAtStart(s: State, id: EventId, route: seq<Junction>, lookahead: nat)
    requires HeldOnRoutes(s) && Orderly(s, Activate(id, route))
    ensures AtStart(Activated(s, id, route, lookahead), id, lookahead)
  {
    WindowAndPassedOnRoute(Event(route, 0, []), 0, lookahead);
  }

  lemma {:induction false} SeparateRunHolds(ops: seq<Op>, lookahead: nat)
    requires SeparateRun(ops, lookahead)
    ensures OnSeparateRoutes(After(ops, lookahead), ReportedAfter(ops, lookahead), lookahead)
  {
    if ops != [] {
      var before, op := ops[..|ops| - 1], ops[|ops| - 1];
      SeparateRunHolds(before, lookahead);
      SeparateStep(After(before, lookahead), ReportedAfter(before, lookahead), op, lookahead);
    }
  }

  lemma SeparateRoutesStay(s: State, reported: set<EventId>, op: Op, lookahead: nat)
    requires OnSeparateRoutes(s, reported, lookahead) && Separate(s, op)
    ensures var t := Step(s, op, lookahead);
            (forall id :: id in t.events ==> InWindow(t.events[id], lookahead)) && Apart(t.events)
  {
  }

  lemma ReportedStaysOnRoute(s: State, reported: set<EventId>, op: Op, lookahead: nat)
    requires OnSeparateRoutes(s, reported, lookahead) && Separate(s, op)
    ensures var t := Step(s, op, lookahead);
            forall id :: id in Reported(s, reported, op) ==> id in t.events && t.events[id].currentIndex < |t.events[id].route|
  {
  }

  lemma StartsStay(s: State, reported: set<EventId>, op: Op, id: EventId, lookahead: nat)
    requires OnSeparateRoutes(s, reported, lookahead) && Separate(s, op)
    requires id in Step(s, op, lookahead).events && id !in Reported(s, reported, op)
    ensures AtStart(Step(s, op, lookahead), id, lookahead)
  {
    if op.id != id {
      assert id !in reported && AtStart(s, id, lookahead);
      OthersKeepOut(s, reported, op, id, lookahead);
    } else if op.Activate? {
      ActivatedAtStart(s, id, op.route, lookahead);
    }
  }

  lemma SeparateStep(s: State, reported: set<EventId>, op: Op, lookahead: nat)
    requires OnSeparateRoutes(s, reported, lookahead) && Separate(s, op)
    ensures OnSeparateRoutes(Step(s, op, lookahead), Reported(s, reported, op), lookahead)
  {
    SeparateRoutesStay(s, reported, op, lookahead);
    HeldStaysOnRoutes(s, reported, op, lookahead);
    ReportedStaysOnRoute(s, reported, op, lookahead);
    forall id | id in Step(s, op, lookahead).events && id !in Reported(s, reported, op)
      ensures AtStart(Step(s, op, lookahead), id, lookahead)
    {
      StartsStay(s, reported, op, id, lookahead);
    }
  }

  // Whichever junction it names, the first report leaves exactly the new window held.
  lemma FirstReportIsExact(s: State, id: EventId, j: Junction, lookahead: nat)
    requires AtStart(s, id, lookahead) && InWindow(s.events[id], lookahead) && Locatable(s, id, j)
    ensures HoldsExactly(Updated(s, id, j, lookahead), id)
  {
    var e := s.events[id];
    var i := IndexOf(e.route, j);
    WindowSlides(e, i, lookahead);
    WindowAndPassedOnRoute(e, i, lookahead);
  }

  // A report of the event is in order, or its window reaches the end of the route, or
  // nothing is ever held; other operations are fine.
  ghost predicate FineReport(s: State, op: Op, id: EventId, lookahead: nat) {
    op.Update? && op.id == id && Locatable(s, id, op.junction) ==>
      var e := s.events[id];
      var i := IndexOf(e.route, op.junction);
      e.currentIndex <= i || |e.route| <= i + lookahead || lookahead == 0
  }

  lemma HoldsExactlyIff(s: State, reported: set<EventId>, op: Op, id: EventId, lookahead: nat)
    requires OnSeparateRoutes(s, reported, lookahead) && Separate(s, op) && id in reported
    requires HoldsExactly(s, id) && op != Deactivate(id)
    ensures HoldsExactly(Step(s, op, lookahead), id) <==> FineReport(s, op, id, lookahead)
  {
    if op.id != id {
      OthersKeepOut(s, reported, op, id, lookahead);
    } else if op.Update? && Locatable(s, id, op.junction) {
      var e := s.events[id];
      ReportKeepsWindowIff(e, IndexOf(e.route, op.junction), lookahead, s.held);
    }
  }

  // The operation at n - 1 is the first report of the event, which is not deactivated later.
  ghost predicate FirstReportAt(ops: seq<Op>, n: nat, id: EventId, lookahead: nat) {
    ReportedAt(ops, n, id, lookahead) && id !in ReportedAfter(ops[..n - 1], lookahead)
  }

  ghost predicate ExactFrom(ops: seq<Op>, n: nat, id: EventId, lookahead: nat) {
    forall m :: n <= m <= |ops| ==> HoldsExactly(After(ops[..m], lookahead), id)
  }

  ghost predicate FineFrom(ops: seq<Op>, n: nat, id: EventId, lookahead: nat) {
    forall m :: n <= m < |ops| ==> FineReport(After(ops[..m], lookahead), ops[m], id, lookahead)
  }

  lemma ExactOneMore(before: seq<Op>, op: Op, n: nat, id: EventId, lookahead: nat)
    requires n <= |before|
    ensures ExactFrom(before + [op], n, id, lookahead) <==>
              ExactFrom(before, n, id, lookahead) && HoldsExactly(Step(After(before, lookahead), op, lookahead), id)
  {
    var ops := before + [op];
    AfterOneMore(before, op, ops, lookahead);
    assert ops[..|ops|] == ops;
    assert forall m :: 0 <= m <= |before| ==> ops[..m] == before[..m];
  }

  lemma FineOneMore(before: seq<Op>, op: Op, n: nat, id: EventId, lookahead: nat)
    requires n <= |before|
    ensures FineFrom(before + [op], n, id, lookahead) <==>
              FineFrom(before, n, id, lookahead) && FineReport(After(before, lookahead), op, id, lookahead)
  {
    var ops := before + [op];
    assert ops[..|before|] == before;
    assert forall m :: 0 <= m <= |before| ==> ops[..m] == before[..m];
  }

  lemma LastExact(ops: seq<Op>, n: nat, id: EventId, lookahead: nat)
    requires n <= |ops| && ExactFrom(ops, n, id, lookahead)
    ensures HoldsExactly(After(ops, lookahead), id)
  {
    assert ops[..|ops|] == ops;
  }

  lemma FirstReportBefore(ops: seq<Op>, before: seq<Op>, n: nat, id: EventId, lookahead: nat)
    requires FirstReportAt(ops, n, id, lookahead) && n < |ops| && before == ops[..|ops| - 1]
    ensures FirstReportAt(before, n, id, lookahead) && ops[|ops| - 1] != Deactivate(id)
  {
    assert before[..n - 1] == ops[..n - 1];
  }

  lemma FirstReportHolds(ops: seq<Op>, id: EventId, lookahead: nat)
    requires SeparateRun(ops, lookahead) && FirstReportAt(ops, |ops|, id, lookahead)
    ensures ExactFrom(ops, |ops|, id, lookahead)
  {
    var n := |ops|;
    var before := ops[..n - 1];
    assert ops[..n] == ops;
    SeparateRunHolds(before, lookahead);
    FirstReportIsExact(After(before, lookahead), id, ops[n - 1].junction, lookahead);
  }

  // Once reported and not deactivated, an event counts as reported.
  lemma {:induction false} StaysReported(ops: seq<Op>, n: nat, id: EventId, lookahead: nat)
    requires SeparateRun(ops, lookahead) && ReportedAt(ops, n, id, lookahead)
    ensures id in ReportedAfter(ops, lookahead)
  {
    var before, op := ops[..|ops| - 1], ops[|ops| - 1];
    if n < |ops| {
      assert before[..n - 1] == ops[..n - 1];
      StaysReported(before, n, id, lookahead);
      SeparateRunHolds(before, lookahead);
    }
  }

  // In every run on separate routes, reports in any order, the held junctions of a route are
  // from the first report on always exactly the event's window if and only if all its later
  // reports are fine.
  lemma {:induction false} ExactWindowIff(ops: seq<Op>, n: nat, id: EventId, lookahead: nat)
    requires SeparateRun(ops, lookahead) && FirstReportAt(ops, n, id, lookahead)
    ensures ExactFrom(ops, n, id, lookahead) <==> FineFrom(ops, n, id, lookahead)
  {
    if n == |ops| {
      FirstReportHolds(ops, id, lookahead);
    } else {
      var before, op := ops[..|ops| - 1], ops[|ops| - 1];
      assert ops == before + [op];
      FirstReportBefore(ops, before, n, id, lookahead);
      ExactWindowIff(before, n, id, lookahead);
      ExactOneMore(before, op, n, id, lookahead);
      FineOneMore(before, op, n, id, lookahead);
      if ExactFrom(before, n, id, lookahead) {
        LastExact(before, n, id, lookahead);
        SeparateRunHolds(before, lookahead);
        StaysReported(before, n, id, lookahead);
        HoldsExactlyIff(After(before, lookahead), ReportedAfter(before, lookahead), op, id, lookahead);
      }
    }
  }

  // ----- Runs that fail -----

  lemma OpenTwo(s: State, id: EventId, p: Junction, q: Junction)
    ensures var t := Activated(s, id, [p, q], 2);
            t.events == s.events[id := Event([p, q], 0, [p, q])] && t.held == s.held + {p}
  {
    assert Window([p, q], 0, 2) == [p, q] && PreEmpted([p, q], 2) == [p];
  }

  // Two routes share their first junction x, where b has reported; the look-ahead is 2.
  ghost predicate BothAt(s: State, a: EventId, b: EventId, x: Junction, y: Junction, z: Junction) {
    && s.events == map[a := Event([x, y], 0, [x, y]), b := Event([x, z], 0, [x, z])]
    && s.held == {x, z}
  }

  lemma BothOpen(a: EventId, b: EventId, x: Junction, y: Junction, z: Junction)
    requires a != b
    ensures var s := After([Activate(a, [x, y]), Activate(b, [x, z])], 2);
            && s.events == map[a := Event([x, y], 0, [x, y]), b := Event([x, z], 0, [x, z])]
            && s.held == {x}
  {
    var op1, op2 := Activate(a, [x, y]), Activate(b, [x, z]);
    AfterOneMore([], op1, [op1], 2);
    OpenTwo(After([], 2), a, x, y);
    AfterOneMore([op1], op2, [op1, op2], 2);
    OpenTwo(After([op1], 2), b, x, z);
  }

  lemma BothAtX(a: EventId, b: EventId, x: Junction, y: Junction, z: Junction)
    requires a != b && x != y && x != z && y != z
    ensures var ops := [Activate(a, [x, y]), Activate(b, [x, z]), Update(b, x)];
            FreshIds(ops) && ReportedAt(ops, 3, b, 2) && BothAt(After(ops, 2), a, b, x, y, z)
  {
    var before, op := [Activate(a, [x, y]), Activate(b, [x, z])], Update(b, x);
    var ops := [Activate(a, [x, y]), Activate(b, [x, z]), op];
    BothOpen(a, b, x, y, z);
    AfterOneMore(before, op, ops, 2);
    assert ops[..2] == before;
    ReportAtFirst(After(before, 2), b, x, z);
  }

  lemma ReportAtFirst(s: State, id: EventId, p: Junction, q: Junction)
    requires id in s.events && s.events[id] == Event([p, q], 0, [p, q])
    ensures Locatable(s, id, p)
    ensures Updated(s, id, p, 2).events == s.events && Updated(s, id, p, 2).held == s.held + {p, q}
  {
    assert [p, q][0] == p && IndexOf([p, q], p) == 0;
    assert Window([p, q], 0, 2) == [p, q] && Passed(s.events[id], 0) == [];
    assert Elements([p, q]) == {p, q};
  }

  // A report of a, in order, takes x from b.
  lemma ReportTakesX(s: State, a: EventId, b: EventId, x: Junction, y: Junction, z: Junction)
    requires a != b && x != y && x != z && y != z && BothAt(s, a, b, x, y, z)
    ensures Orderly(s, Update(a, y)) && HasWindow(s, b)
    ensures var t := Step(s, Update(a, y), 2);
            t.events[b] == s.events[b] && x in t.events[b].active && x !in t.held
  {
    assert [x, y][1] == y && IndexOf([x, y], y) == 1;
    assert Window([x, y], 1, 2) == [y] && Passed(s.events[a], 1) == [x];
  }

  // So does the deactivation of a.
  lemma DeactivationTakesX(s: State, a: EventId, b: EventId, x: Junction, y: Junction, z: Junction)
    requires a != b && x != y && x != z && y != z && BothAt(s, a, b, x, y, z)
    ensures HasWindow(s, b)
    ensures var t := Step(s, Deactivate(a), 2);
            b in t.events && t.events[b] == s.events[b] && x in t.events[b].active && x !in t.held
  {
    assert [x, y][0] == x && [x, z][0] == x;
  }

  // In these two runs b loses x from its window: once though nothing is deactivated and all
  // reports are in order.
  lemma SharedJunctionIsLost(a: EventId, b: EventId, x: Junction, y: Junction, z: Junction, op: Op)
    requires a != b && x != y && x != z && y != z && (op == Update(a, y) || op == Deactivate(a))
    ensures var before := [Activate(a, [x, y]), Activate(b, [x, z]), Update(b, x)];
            var s := After(before + [op], 2);
            && FreshIds(before + [op]) && ReportedAt(before, 3, b, 2)
            && Orderly(After(before, 2), op) && HasWindow(After(before, 2), b)
            && b in s.events && x in s.events[b].active && x !in s.held
  {
    var before := [Activate(a, [x, y]), Activate(b, [x, z]), Update(b, x)];
    BothAtX(a, b, x, y, z);
    AfterOneMore(before, op, before + [op], 2);
    if op.Update? {
      ReportTakesX(After(before, 2), a, b, x, y, z);
    } else {
      DeactivationTakesX(After(before, 2), a, b, x, y, z);
    }
  }

  // Going back from the second junction to the first leaves the second one held.
  lemma BackwardReportKeepsTooMuch(id: EventId, x: Junction, y: Junction)
    requires x != y
    ensures var s := After([Activate(id, [x, y]), Update(id, y), Update(id, x)], 1);
            id in s.events && s.events[id].active == [x] && y in s.held
  {
    var route := [x, y];
    var op1, op2, op3 := Activate(id, route), Update(id, y), Update(id, x);
    AfterOneMore([], op1, [op1], 1);
    AfterOneMore([op1], op2, [op1, op2], 1);
    AfterOneMore([op1, op2], op3, [op1, op2, op3], 1);
    assert route[1] == y && IndexOf(route, y) == 1 && IndexOf(route, x) == 0;
    assert Window(route, 1, 1) == [y] && Window(route, 0, 1) == [x];
    var s := After([op1, op2], 1);
    assert s.events == map[id := Event(route, 1, [y])] && y in s.held;
    assert Passed(s.events[id], 0) == [];
  }

  // Activating an id again loses the junctions of its first route, whose plan stays saved.
  lemma ReplacedEventLeavesPlans(id: EventId, x: Junction, y: Junction, lookahead: nat)
    requires x != y
    ensures var s := After([Activate(id, [x]), Activate(id, [y])], lookahead);
            x in s.plans && !InUse(s.events, x)
  {
    var a, b := Activate(id, [x]), Activate(id, [y]);
    AfterOneMore([], a, [a], lookahead);
    AfterOneMore([a], b, [a, b], lookahead);
    var s := After([a, b], lookahead);
    assert x in [x] && s.events.Keys == {id} && s.events[id].route == [y];
  }

  // ----- The controller -----

  class Environment {
    var held: set<Junction>
    var restores: seq<Restore>

    constructor ()
      ensures held == {} && restores == []
    {
      held, restores := {}, [];
    }

    method SetGreenWave(j: Junction)
      modifies this
      ensures held == old(held) + {j} && restores == old(restores)
    {
      held := held + {j};
    }

    method RestorePlan(j: Junction, plan: Option<Plan>)
      modifies this
      ensures held == old(held) - {j} && restores == old(restores) + [Restore(j, plan)]
    {
      held := held - {j};
      restores := restores + [Restore(j, plan)];
    }
  }

  datatype Status = Done(status: string) | Error(message: string)

  class GreenWaveController {
    const lookahead: nat
    var activeEvents: map<EventId, Event>
    var originalPlans: map<Junction, Plan>

    constructor (lookahead: nat := 3)
      ensures this.lookahead == lookahead && activeEvents == map[] && originalPlans == map[]
    {
      this.lookahead := lookahead;
      activeEvents, originalPlans := map[], map[];
    }

    // What the controller knows, with what the environment has been told, if there is one.
    ghost function View(env: Environment?): State
      reads this, env
    {
      State(activeEvents, originalPlans, if env == null then {} else env.held, if env == null then [] else env.restores)
    }

    method Activate(id: EventId, route: seq<Junction>, env: Environment?) returns (r: Status)
      modifies this, env
      ensures IsView(View(env), Activated(old(View(env)), id, route, lookahead), env) && r == Done("activated")
    {
      SavePlans(route);
      var active := Window(route, 0, lookahead);
      if env != null {
        HoldAll(PreEmpted(route, lookahead), env);
      }
      activeEvents := activeEvents[id := Event(route, 0, active)];
      r := Done("activated");
    }

    method SavePlans(route: seq<Junction>)
      modifies this`originalPlans
      ensures originalPlans == PlansActivated(old(originalPlans), route)
    {
      for i := 0 to |route|
        invariant originalPlans == PlansActivated(old(originalPlans), route[..i])
      {
        assert route[..i + 1] == route[..i] + [route[i]];
        if route[i] !in originalPlans {
          originalPlans := originalPlans[route[i] := MockPlan];
        }
      }
      assert route[..|route|] == route;
    }

    method UpdatePosition(id: EventId, j: Junction, env: Environment?) returns (r: Status)
      modifies this`activeEvents, env
      ensures IsView(View(env), Updated(old(View(env)), id, j, lookahead), env)
      ensures r == if id !in old(activeEvents) then Error("Event not found")
                   else if j !in old(activeEvents)[id].route then Error("Junction not in route")
                   else Done("updated")
    {
      if id !in activeEvents {
        return Error("Event not found");
      }
      var event := activeEvents[id];
      if j !in event.route {
        return Error("Junction not in route");
      }
      var i := IndexOf(event.route, j);
      var passed := Passed(event, i);
      var active := Window(event.route, i, lookahead);
      if env != null {
        RestoreAll(passed, env);
        HoldAll(active, env);
      }
      activeEvents := activeEvents[id := Event(event.route, i, active)];
      r := Done("updated");
    }

    method RestoreAll(js: seq<Junction>, env: Environment)
      modifies env
      ensures env.held == old(env.held) - Elements(js)
      ensures env.restores == old(env.restores) + RestoresOf(originalPlans, js)
    {
      for i := 0 to |js|
        invariant env.held == old(env.held) - Elements(js[..i])
        invariant env.restores == old(env.restores) + RestoresOf(originalPlans, js[..i])
      {
        assert js[..i + 1] == js[..i] + [js[i]];
        assert RestoresOf(originalPlans, js[..i + 1]) ==
               RestoresOf(originalPlans, js[..i]) + [Restore(js[i], Lookup(originalPlans, js[i]))];
        env.RestorePlan(js[i], Lookup(originalPlans, js[i]));
      }
      assert js[..|js|] == js;
    }

    method HoldAll(js: seq<Junction>, env: Environment)
      modifies env
      ensures env.held == old(env.held) + Elements(js) && env.restores == old(env.restores)
    {
      for i := 0 to |js|
        invariant env.held == old(env.held) + Elements(js[..i]) && env.restores == old(env.restores)
      {
        assert js[..i + 1] == js[..i] + [js[i]];
        env.SetGreenWave(js[i]);
      }
      assert js[..|js|] == js;
    }

    method Deactivate(id: EventId, env: Environment?) returns (r: Status)
      modifies this, env
      ensures IsView(View(env), Deactivated(old(View(env)), id), env)
      ensures r == if id in old(activeEvents) then Done("deactivated") else Error("Event not found")
    {
      if id !in activeEvents {
        return Error("Event not found");
      }
      var route := activeEvents[id].route;
      if env != null {
        RestoreAll(route, env);
      }
      DropPlans(id, route);
      activeEvents := activeEvents - {id};
      r := Done("deactivated");
    }

    // Whether another event uses a junction.
    method UsedByOthers(id: EventId, j: Junction) returns (used: bool)
      ensures used <==> InUse(activeEvents - {id}, j)
    {
      var todo := activeEvents.Keys - {id};
      used := false;
      while todo != {}
        invariant todo <= activeEvents.Keys - {id}
        invariant used <==> exists k :: k in activeEvents && k != id && k !in todo && j in activeEvents[k].route
        decreases todo
      {
        var k :| k in todo;
        used := used || j in activeEvents[k].route;
        todo := todo - {k};
      }
      assert forall k :: k in activeEvents - {id} <==> k in activeEvents && k != id;
      if used {
        var k :| k in activeEvents && k != id && j in activeEvents[k].route;
        assert k in activeEvents - {id} && j in (activeEvents - {id})[k].route;
      }
    }

    method DropPlans(id: EventId, route: seq<Junction>)
      requires id in activeEvents && route == activeEvents[id].route
      modifies this`originalPlans
      ensures originalPlans == PlansDeactivated(State(activeEvents, old(originalPlans), {}, []), id)
    {
      ghost var others := activeEvents - {id};
      for i := 0 to |route|
        invariant forall j :: j in originalPlans <==>
                    j in old(originalPlans) && !(j in route[..i] && !InUse(others, j))
        invariant forall j :: j in originalPlans ==> originalPlans[j] == old(originalPlans)[j]
      {
        assert route[..i + 1] == route[..i] + [route[i]];
        var inUse := UsedByOthers(id, route[i]);
        if !inUse && route[i] in originalPlans {
          originalPlans := originalPlans - {route[i]};
        }
      }
      assert route[..|route|] == route;
    }
  }

  // The dictionaries agree, and so does what the environment was told if there is one.
  ghost predicate IsView(s: State, t: State, env: Environment?) {
    s.events == t.events && s.plans == t.plans && (env != null ==> s.held == t.held && s.restores == t.restores)
  }
}
