# Verified models of Surakshanet's control algorithms

Surakshanet controls traffic signals: it routes vehicles, pre-empts junctions for
emergency vehicles, drives roadside cabinets, couples a traffic simulator to a
dashboard, and learns or computes signal timings. This project models the algorithms
of those parts in Dafny and proves what they promise, for every input and every run.
Code that updates state in place is modelled by classes and loops, each proved against
a specification function about which the properties are then proved.

| files | part of the system |
|---|---|
| `Walks`, `OpenSet`, `AStar`, `Alternatives`, `Distances`, `RoutingEngine`, `RoutingGuarantees`, `Detours`, `RoutingAnswers` | the A* routing engine with its K alternatives |
| `Snmp`, `Modbus`, `SignalBridge` | the edge bridge: SNMP and Modbus encoders, lamp state machine, dispatcher |
| `GreenWave` | the emergency green-wave controller |
| `RedisFraming`, `SumoBridge` | the Redis framing and the command loop of the simulator bridge |
| `Reconnect`, `WebSocketService` | the reconnecting WebSocket service of the dashboard |
| `Webster`, `SignalAgent`, `Exploration` | fixed-time signal timing, and the learning agent's safety mask and schedule |
| `Wrappers`, `Sequences`, `Powers` | options, sequences and powers used by the others |

Weights, distances, Q-values and rates are reals; great-circle distance is any metric on
positions (non-negative, zero on equal positions, triangle inequality). Exceptions are
`None` or error values. Random draws, network outputs, clocks and incoming data are
arguments. Decoders, which the repository does not contain, follow ITU-T X.690 (sections
8.1.3, 8.3 and 8.19), RFC 3416 (section 3), the MODBUS Application Protocol
Specification V1.1b3 (section 6.11), and the Redis serialization protocol (arrays and
bulk strings).

Some promises hold only under a condition, which is then proved to be exact:

- Routes are optimal on built and on penalised graphs. After `update_edge_weights` the
  heuristic can overestimate; the exact limit for the reported speed is 240/7 km/h
  (`SafeSpeedIsExact`). At higher speeds v routes stay within 10 v / (240 + 3 v) of the
  cheapest, which is below 10/3, and no smaller factor holds (`ExcessIsExact`).
- SNMP frames use one length octet throughout, so bodies of 128 octets or more cannot be
  decoded (`SetRequestRoundTripIff`); object identifiers put the first two arcs into one
  octet (`OidRoundTripIff`).
- The last frame, and the aspects last reported, can disagree with the cabinet after
  HOLD_GREEN and EXTEND_GREEN, and the frame also after unknown actions
  (`FrameMatchesCabinetIff`, `DiagnosticsMatchCabinetIff`).
- When routes overlap, an event that has reported loses shared junctions of its window to
  passing reports of other events as well as to their deactivation, and to nothing else
  (`WindowHeldIff`); an out-of-order report leaves junctions held (`ReportKeepsWindowIff`).
- The channel length of a published frame counts characters where the server counts
  octets, and the listener reads characters where the server announces octets
  (`ArrivesAsPublishedIff`).
- A channel gets a second live socket exactly when a connect happens while a disconnected
  socket is still to close (`AtMostOneSocketOverRunsIff`), and a disconnected channel can
  open again by itself whenever a close is still to come (`ReopensIff`).
- At demands of 1 and more the saturation cap keeps the greens from filling the cycle:
  always with up to seven phases, and not always with more (`FillsCycleIff`,
  `SevenIsExact`); they exceed it always with up to fifteen phases, and not always with
  more (`SaturationOverruns`, `FifteenIsExact`).
- The exploration rate follows the geometric schedule exactly under a condition on floor,
  start and decay (`EpsilonScheduleIff`): a decay between 0 and 1 with a non-negative floor
  meets it; a floor that would rise under the decay, or a negative decay, may not.

## Model

| member | source | states |
|---|---|---|
| `AStar.RouteIsOptimal` | ml/routing/routing_engine.py:101-129 | with an estimate that never overestimates, the returned path costs no more than any walk from start to end, although nodes are reopened, stale entries stay in the heap and the start is pushed at priority 0 |
| `AStar.RouteIsNoneIffUnreachable` | ml/routing/routing_engine.py:113-129 | whatever the estimate, "No path found" is returned if and only if no walk leads from start to end |
| `AStar.RouteIsSimplePath` | ml/routing/routing_engine.py:113-136 | whatever the estimate, a returned path is a walk along graph edges from start to end that visits no node twice |
| `AStar.ExpandKeepsInv` | ml/routing/routing_engine.py:113-127 | one pop and expansion keeps the whole search invariant (parent tree, queued or relaxed, scores attained by simple paths) and strictly lowers a lexicographic measure, so the loop ends for all non-negative weights and any estimate, zero weights included |
| `AStar.RelaxProgress` | ml/routing/routing_engine.py:119-127 | an expansion either uses up one of the finitely many simple paths that could still improve a score, or changes neither heap nor scores |
| `AStar.RewiringKeepsAcyclic` | ml/routing/routing_engine.py:123-124 | hanging nodes with strictly improved scores below the expanded node closes no circle of parents, even over zero-weight edges |
| `AStar.RelaxKeepsTree` | ml/routing/routing_engine.py:119-125 | parents are scored, joined by edges and never score more than their children, and the start never gets a parent |
| `AStar.ImprovedPath` | ml/routing/routing_engine.py:120-125 | the path that accounts for an improved score is the path of the expanded node and one more step, and is again simple |
| `AStar.ChainCost` | ml/routing/routing_engine.py:131-136 | a chain of parents from the start is a walk, and costs at most the score of its last node |
| `AStar.PoppedScoreWithin` | ml/routing/routing_engine.py:113-118 | when the end is popped under an estimate that overestimates by a factor of c at most, its score is at most c times the cost of every walk to it |
| `AStar.RouteIsWithin` | ml/routing/routing_engine.py:101-129 | with such an estimate the returned path costs at most c times any walk from start to end |
| `AStar.RunEnds` | ml/routing/routing_engine.py:113-129 | from every state of the search the loop reaches an empty heap or pops the end, with the invariant intact |
| `OpenSet.LeastIsUnique` | ml/routing/routing_engine.py:114-114 | tuples of priority and node name are totally ordered, so the entry heappop returns is determined by the heap contents alone |
| `OpenSet.StringLeMeans` | ml/routing/routing_engine.py:114-114 | node names compare at their first difference, and before their continuations |
| `OpenSet.Pop` | ml/routing/routing_engine.py:114-114 | popping takes out one copy of an entry with the least priority, and among those the least node name, and leaves the others |
| `Routing.RoutingEngine.AstarSearch` | ml/routing/routing_engine.py:101-129 | the heap loop returns the route of the specification for its query with the distance along it, or "No path found"; it asks only that weights are non-negative |
| `Routing.RoutingEngine.RelaxNeighbours` | ml/routing/routing_engine.py:119-127 | relaxing the neighbours one by one, in any order, has the effect of relaxing them at once |
| `Routing.RelaxStep` | ml/routing/routing_engine.py:120-127 | testing one neighbour against the current scores decides as testing it against the scores before the loop would, and adds exactly its own entry, score and parent |
| `Routing.RoutingEngine.ReconstructPath` | ml/routing/routing_engine.py:131-136 | the reversed list of parents is the chain that starts at a node without parent and ends at the given node |
| `Routing.RoutingEngine.CalculateRouteMetrics` | ml/routing/routing_engine.py:138-157 | the distance is the sum of the edge distances along the path |
| `Routing.RoutingEngine.FindNearestNode` | ml/routing/routing_engine.py:159-168 | the first inserted node at the least distance, or none when the graph is empty |
| `Routing.NearestIsFirstMinimum` | ml/routing/routing_engine.py:159-168 | the node it names is at most as far as every other, and strictly nearer than every earlier one |
| `RoutingAnswers.NearestMeans` | ml/routing/routing_engine.py:159-168 | the node named nearest is at most as far as every node, and strictly nearer than all that were inserted before it |
| `Routing.RoutingEngine.FindRoute` | ml/routing/routing_engine.py:59-68 | the answer of the search between the nodes nearest to origin and destination; an error for an empty graph |
| `RoutingAnswers.AnswerMeans` | ml/routing/routing_engine.py:101-136 | the answer to a query is no path if and only if there is none; otherwise a way from its start to its end without repetitions, the cheapest under an admissible estimate |
| `RoutingAnswers.DistanceAddsUp` | ml/routing/routing_engine.py:138-157 | the distance of an answer is the sum of the straight lines along its path, however often the weights were changed since the graph was built |
| `Routing.RoutingEngine.BuildGraph` | ml/routing/routing_engine.py:12-34 | the graph has exactly the named roads, later ones replacing earlier ones; it fails exactly when a road names a junction without position, and then holds the roads before the first such one and its first node |
| `Routing.BuiltEdges` | ml/routing/routing_engine.py:25-34 | an edge exists if and only if a road names it, and weighs exactly the distance between its ends |
| `RoutingAnswers.LastRoad` | ml/routing/routing_engine.py:25-34 | an edge has the length, speed and capacity of the last road between its ends, with 50 and 1000 where none is given |
| `RoutingAnswers.LastPosition` | ml/routing/routing_engine.py:17-20 | a junction stands where its last entry puts it |
| `RoutingAnswers.SeenInOrder` | ml/routing/routing_engine.py:17-20 | junctions are kept in the order in which they are first named |
| `Routing.RoutingEngine.UpdateEdgeWeights` | ml/routing/routing_engine.py:36-57 | exactly the edges with a reading get a new weight; distances, speeds, capacities and all other edges stay |
| `RoutingAnswers.ReweightedEdge` | ml/routing/routing_engine.py:40-54 | the edge from u to v is reweighted by the reading named u-v if there is one, to 0.4 times its minutes at a speed of 1 or more, 3 times its load up to 1, and 0.3 times its length; without such a reading it stays |
| `RoutingAnswers.ReadingsAreDirected` | ml/routing/routing_engine.py:40-44 | a reading for the opposite direction changes nothing |
| `Routing.RoutingEngine.PenalisePath` | ml/routing/routing_engine.py:89-92 | every edge between successive nodes of a simple path weighs 1.5 times as much, every other edge as before |
| `Routing.RoutingEngine.RestoreWeights` | ml/routing/routing_engine.py:94-97 | writing the saved weights back gives the graph before the call, whatever weights it had in between |
| `Routing.RoutingEngine.NextAlternative` | ml/routing/routing_engine.py:81-92 | one round answers the current query and leaves the graph of the next one |
| `Routing.RoutingEngine.FindAlternatives` | ml/routing/routing_engine.py:70-99 | the graph is exactly as it was found on every exit; the routes answer the successive rounds, the first being the plain answer, and there are as many as asked for or, when the first search fails, none |
| `RoutingAnswers.AlternativesMean` | ml/routing/routing_engine.py:70-99 | the alternatives are as many as asked for, or none if and only if there is no way or none was asked for; the first is the plain answer |
| `RoutingAnswers.AlternativeIsWay` | ml/routing/routing_engine.py:81-87 | each of them is a way from start to end without repetitions |
| `RoutingAnswers.AlternativeCosts` | ml/routing/routing_engine.py:81-92 | under an admissible estimate the k-th costs at most 1.5^k times any way, in the weights before the call |
| `Routing.RoutingEngine.CollectRoutes` | ml/routing/routing_engine.py:80-92 | the loop collects those routes and changes nothing but weights |
| `Routing.RoutesWeigh` | ml/routing/routing_engine.py:80-92 | when routes have been collected every edge weighs its original weight times 1.5 to the number of those routes that take it |
| `Alternatives.RoundWeighs` | ml/routing/routing_engine.py:80-92 | so does every edge before each round, counting the routes of the rounds before |
| `Routing.NoFirstRoute` | ml/routing/routing_engine.py:82-84 | the early break happens only in the first round |
| `Alternatives.AlternativesWithinFactor` | ml/routing/routing_engine.py:81-92 | the k-th route (from 0), found under penalised weights, is within c and k penalties of every walk in the original weights, when the estimate is within c there |
| `Alternatives.WithinFactor` | ml/routing/routing_engine.py:92-92 | within c and k penalties means at most c * 1.5^k times the cost of every walk, the optimum included |
| `Alternatives.PenaltyScales` | ml/routing/routing_engine.py:89-92 | after one more round every weight lies between the original and 1.5^(k+1) times it, since a simple path uses an edge once |
| `Alternatives.RoundsFindTogether` | ml/routing/routing_engine.py:81-84 | penalties disconnect nothing: a round finds a path if and only if the first one does, and it is a simple path of the original graph |
| `Distances.FreeEdgeCoversDistanceIff` | ml/routing/routing_engine.py:45-54 | a reweighted uncongested edge weighs at least its length if and only if its speed is at most 240/7 km/h |
| `Distances.EdgeCoversDistance` | ml/routing/routing_engine.py:45-54 | at speeds up to a limit and any congestion an edge is at most max(1, 10 limit / (240 + 3 limit)) times longer than its new weight, which stays non-negative |
| `Distances.StraightIsShortest` | ml/routing/routing_engine.py:170-176 | when no edge is more than c times longer than its weight, the straight line between the ends of a walk is at most c times its cost |
| `Distances.StraightLineIsStretched` | ml/routing/routing_engine.py:170-176 | the straight-line heuristic then overestimates by a factor of c at most |
| `RoutingGuarantees.BuiltRouteIsShortest` | ml/routing/routing_engine.py:12-34 | on a freshly built graph every returned route is the cheapest of all walks, and every alternative is within its factor, for every metric distance |
| `RoutingGuarantees.EngineAsksBuiltQuery` | ml/routing/routing_engine.py:101-126 | an engine that has just built its graph searches exactly the queries for which that is proved |
| `RoutingGuarantees.TrafficKeepsReachability` | ml/routing/routing_engine.py:36-57 | traffic at any speed and non-negative density keeps all weights non-negative, and a route is found after reweighting if and only if one was found before |
| `RoutingGuarantees.TrafficRouteIsWithin` | ml/routing/routing_engine.py:36-99 | after a built graph is reweighted by traffic at speeds up to a limit and any non-negative density, the k-th route costs at most that factor times 1.5^k times every walk; the factor is 1 up to 240/7 km/h and below 10/3 at any speed |
| `Routing.UpdatesMerge` | ml/routing/routing_engine.py:36-57 | any number of updates reweight a graph as one update with the latest reading of each edge |
| `RoutingGuarantees.EngineAsksTrafficQuery` | ml/routing/routing_engine.py:36-57 | an engine that built its graph and was updated any number of times searches the query of the latest readings |
| `RoutingGuarantees.EngineRouteIsWithin` | ml/routing/routing_engine.py:36-99 | so its routes and alternatives stay within that factor however often it was updated |
| `Detours.DetourIsMissed` | ml/routing/routing_engine.py:50-54 | when a direct road costs more than a detour but less than the detour seems to cost from its middle, the search returns the direct road, though a walk costs less |
| `Detours.DetourIsTraffic` | ml/routing/routing_engine.py:36-57 | building three roads and reweighting them by uncongested readings up to the limit gives such a graph |
| `Detours.SafeSpeedIsExact` | ml/routing/routing_engine.py:45-54 | for every allowed density, zero included, traffic up to a given speed keeps all routes of all built graphs the cheapest if and only if that speed is at most 240/7 km/h |
| `Detours.ExcessIsExact` | ml/routing/routing_engine.py:45-54 | likewise it keeps them all within a factor if and only if that factor is at least max(1, 10 limit / (240 + 3 limit)) |
| `Snmp.Base128RoundTrip` | iot/edge/signal_controller_bridge.py:36-49 | every sub-identifier is decoded to itself, whatever follows |
| `Snmp.Base128IsMinimal` | iot/edge/signal_controller_bridge.py:39-49 | its encoding is the only one that does not start with the padding octet 80h |
| `Snmp.NemaArc` | iot/edge/signal_controller_bridge.py:39-49 | the arc 1206 is 89h 36h |
| `Snmp.EncodeSub` | iot/edge/signal_controller_bridge.py:37-49 | the loops over the list of octets build that encoding |
| `Snmp.CollectDigits` | iot/edge/signal_controller_bridge.py:41-45 | the shifting loop collects the base-128 digits, least significant first |
| `Snmp.MarkOctets` | iot/edge/signal_controller_bridge.py:46-48 | reversing and or-ing 80h into all but the last octet |
| `Snmp.EncodeOidOctets` | iot/edge/signal_controller_bridge.py:31-50 | the loop over the parts gives the specified encoding, or an error for missing, negative or oversized parts |
| `Snmp.OidOctets` | iot/edge/signal_controller_bridge.py:33-50 | tag, length, both first arcs in one octet, and the other sub-identifiers |
| `Snmp.OidRoundTripIff` | iot/edge/signal_controller_bridge.py:31-50 | an object identifier decodes to its own parts if and only if its first two arcs are standard and fit one octet below 128 |
| `Snmp.FortiethArcComesBackWrong` | iot/edge/signal_controller_bridge.py:35-35 | the arcs 1.40 come back as 2.0 |
| `Snmp.ShortTlvRoundTrip` | iot/edge/signal_controller_bridge.py:68-92 | a length octet below 128 announces exactly its contents, and the rest is left over |
| `Snmp.LongTlvFails` | iot/edge/signal_controller_bridge.py:91-92 | a length octet of 128 or more announces something else than the contents it was made from |
| `Snmp.FourOctetsValue` | iot/edge/signal_controller_bridge.py:78-79 | the four octets of a request id read back as it, less 2^32 from 2^31 on |
| `Snmp.FourOctetsBigEndian` | iot/edge/signal_controller_bridge.py:78-79 | the most significant octet comes first |
| `Snmp.AsciiOctetsMean` | iot/edge/signal_controller_bridge.py:88-89 | a community is its character codes, and an error if one is not ASCII |
| `Snmp.SetRequestDecodes` | iot/edge/signal_controller_bridge.py:53-92 | a frame with a body below 128 octets decodes layer by layer, every nested length matching; a longer one does not decode |
| `Snmp.SetRequestLayout` | iot/edge/signal_controller_bridge.py:53-92 | every octet of the frame outside identifier, community and request id, with every nested length, in numbers |
| `Snmp.SetRequestRoundTripIff` | iot/edge/signal_controller_bridge.py:53-92 | the frame decodes to its version, community, request id, object identifier and value if and only if the body is below 128 octets, the first arcs fit, the value is in -128..127 and the request id is below 2^31 |
| `Modbus.PackInto` | iot/edge/signal_controller_bridge.py:133-139 | or-ing one coil at a time into the zeroed byte array packs coil i into bit i mod 8 of octet i div 8 |
| `Modbus.OrNextBit` | iot/edge/signal_controller_bridge.py:138-139 | or-ing the next bit into the octet built so far appends that bit |
| `Modbus.UnpackPack` | iot/edge/signal_controller_bridge.py:134-139 | unpacking gives all coils back, and all padding bits are zero |
| `Modbus.PackUnpack` | iot/edge/signal_controller_bridge.py:134-139 | octets with zero padding come back when what they unpack to is packed again |
| `Modbus.WriteMultipleCoils` | iot/edge/signal_controller_bridge.py:124-143 | the method with the loop builds the specified frame, or an error when a field does not fit |
| `Modbus.FrameLayout` | iot/edge/signal_controller_bridge.py:141-143 | where each field stands; the MBAP length is the number of octets that follow it |
| `Modbus.TwoOctetsBigEndian` | iot/edge/signal_controller_bridge.py:141-142 | two-octet fields have the more significant octet first, and exist exactly for 0..65535 |
| `Modbus.FrameRoundTripIff` | iot/edge/signal_controller_bridge.py:124-143 | a byte string is the frame for a write if and only if it decodes to that write, so all coils, addresses and ids come back |
| `SignalBridge.VirtualCabinet.constructor` | iot/edge/signal_controller_bridge.py:154-167 | the cabinet starts with north-south green, east-west red |
| `SignalBridge.VirtualCabinet.ApplyOverride` | iot/edge/signal_controller_bridge.py:169-214 | coils, flash mode and response after each action; unknown actions change nothing |
| `SignalBridge.RelaysAreCoils` | iot/edge/signal_controller_bridge.py:175-212 | the relays reported as active are exactly the coils that are on |
| `SignalBridge.ResponseMeans` | iot/edge/signal_controller_bridge.py:189-214 | the response names its action; a hold lasts the commanded seconds, or 15 instead of 0 |
| `SignalBridge.ResponseMatchesCoilsIff` | iot/edge/signal_controller_bridge.py:189-212 | the reported aspects are those of the coils if and only if the action switches coils or they show north-south green already |
| `SignalBridge.SignalControllerBridge.constructor` | iot/edge/signal_controller_bridge.py:224-240 | the bridge starts with transaction id 1 and with identifiers of the shape for which frames are proved to exist |
| `SignalBridge.SignalControllerBridge.DispatchCommand` | iot/edge/signal_controller_bridge.py:242-287 | the transaction id always advances; the frames are those of the new id; the cabinet is touched, and its response returned, only when both frames could be built |
| `SignalBridge.FramesExistIff` | iot/edge/signal_controller_bridge.py:247-266 | both frames can be built if and only if the transaction id fits two octets |
| `SignalBridge.FrameCarriesLamps` | iot/edge/signal_controller_bridge.py:256-266 | the Modbus frame decodes to the lamps of the action, at coil 0 of unit 1 |
| `SignalBridge.CoilOctets` | iot/edge/signal_controller_bridge.py:256-266 | the coil octets on the wire are 49h 02h for red everywhere, 61h 08h for east-west and 0Ch 03h for north-south green |
| `SignalBridge.FrameCarriesRequestIff` | iot/edge/signal_controller_bridge.py:251-253 | the SNMP frame decodes to the request of the action if and only if the value fits one signed octet |
| `SignalBridge.FlashRequest` | iot/edge/signal_controller_bridge.py:251-253 | the SNMP frame of FLASH_ALL_RED sets 1.3.6.1.4.1.1206.4.2.1.5.1 to 4, whatever value is commanded |
| `SignalBridge.HoldRequest` | iot/edge/signal_controller_bridge.py:251-253 | that of every other action sets 1.3.6.1.4.1.1206.4.2.1.1.4 to the commanded value, or to 1 instead of 0 |
| `SignalBridge.EveryRunRequests` | iot/edge/signal_controller_bridge.py:242-253 | over every run of up to 65534 commands the last frame does so, under the number of the command plus one |
| `SignalBridge.LargeValueComesBackNegative` | iot/edge/signal_controller_bridge.py:252-253 | a commanded value of 200 comes back as -56 |
| `SignalBridge.LongCommunityIsLost` | iot/edge/signal_controller_bridge.py:88-92 | with a community of 103 characters the frame is built but does not decode |
| `SignalBridge.EveryRunIsSafe` | iot/edge/signal_controller_bridge.py:242-269 | over every run, the coils of the cabinet and the coils decoded from every frame light exactly one lamp per approach and never green for crossing approaches; commands 1 to 65534 get frames and later ones do not |
| `SignalBridge.UnswitchedIff` | iot/edge/signal_controller_bridge.py:169-214 | the cabinet shows its first coils if and only if no command of the run switched them |
| `SignalBridge.FrameMatchesCabinetIff` | iot/edge/signal_controller_bridge.py:255-269 | after any run the lamps of the last frame equal the cabinet coils if and only if the last command was FLASH_ALL_RED or PHASE_SKIP, or none of the run was |
| `SignalBridge.DiagnosticsMatchCabinetIff` | iot/edge/signal_controller_bridge.py:268-279 | after any run that ends in a known action, the aspects it reports are the cabinet ones if and only if that action was FLASH_ALL_RED or PHASE_SKIP, or none of the run was |
| `SignalBridge.HoldAfterSkipDisagrees` | iot/edge/signal_controller_bridge.py:189-212 | HOLD_GREEN after PHASE_SKIP sends north-south green while the cabinet stays at east-west green |
| `GreenWave.GreenWaveController.Activate` | ml/emergency/green_wave.py:15-46 | new event, saved plans and held junctions after an activation |
| `GreenWave.ActivationHolds` | ml/emergency/green_wave.py:24-32 | after an activation a junction is held if and only if it was before, or is one of the first look-ahead junctions but for the last of them |
| `GreenWave.ActivationMeans` | ml/emergency/green_wave.py:15-46 | the event starts at index 0 with the first look-ahead junctions as its window, in order; its junctions get plans where none is saved, and nothing else changes |
| `GreenWave.GreenWaveController.UpdatePosition` | ml/emergency/green_wave.py:48-80 | position, window, restored and held junctions after a report, and its two errors |
| `GreenWave.ReportMeans` | ml/emergency/green_wave.py:48-80 | the event moves to the first place of the reported junction, with the next junctions as its window; exactly the passed junctions are restored, in order, each with its saved plan; other events and plans stay |
| `GreenWave.ReportHolds` | ml/emergency/green_wave.py:61-78 | then a junction is held if and only if it is in the new window, or was held and not passed |
| `GreenWave.GreenWaveController.Deactivate` | ml/emergency/green_wave.py:82-103 | event, plans, restored and released junctions after a deactivation, and its error |
| `GreenWave.DeactivationMeans` | ml/emergency/green_wave.py:82-103 | the event is gone, its junctions are restored in the order of the route and released, and its plans dropped where no other event needs them |
| `GreenWave.GreenWaveController.UsedByOthers` | ml/emergency/green_wave.py:97-97 | whether another active event has the junction on its route |
| `GreenWave.GreenWaveController.DropPlans` | ml/emergency/green_wave.py:95-99 | exactly the plans of junctions that no other event uses are dropped, also when the route names a junction twice |
| `GreenWave.ActivateKeepsPlansIff` | ml/emergency/green_wave.py:17-44 | an activation keeps saved plans and junctions in use the same set if and only if it replaces no event, or one whose junctions all stay in use |
| `GreenWave.ReplacedEventLeavesPlans` | ml/emergency/green_wave.py:17-44 | activating an id again leaves a saved plan that no event uses |
| `GreenWave.DeactivateKeepsPlans` | ml/emergency/green_wave.py:89-101 | a deactivation keeps that, and hands a saved plan to every restore |
| `GreenWave.EveryRunCovers` | ml/emergency/green_wave.py:15-103 | over every run every junction in use has a saved plan, and every restore_plan call was given one |
| `GreenWave.FreshRunsMatch` | backend/app/api/emergency.py:49-59 | with fresh event ids, as the API makes them, the saved plans are over every run exactly those of the union of the active routes |
| `GreenWave.WindowSlides` | ml/emergency/green_wave.py:61-78 | what restoring the passed junctions leaves of the old window lies in the new one |
| `GreenWave.OrderlyRunHolds` | ml/emergency/green_wave.py:15-103 | over every run with disjoint duplicate-free routes and reports in order, windows follow positions and only windows are held |
| `GreenWave.HeldIsWindow` | ml/emergency/green_wave.py:68-78 | in such runs the held junctions of a route lie in the look-ahead slice at the current index, and equal it once the vehicle has reported |
| `GreenWave.DeactivateReleases` | ml/emergency/green_wave.py:89-92 | after a deactivation no junction of the route is held, and another event keeps its window if and only if the window avoids that route |
| `GreenWave.ReportReleases` | ml/emergency/green_wave.py:61-78 | after a report another event keeps its window if and only if what the report passes of it is in the new window of the reporting event |
| `GreenWave.WindowHeldIff` | ml/emergency/green_wave.py:15-103 | over every run with fresh ids, routes overlapping or not, the window of an event that has reported stays held if and only if no operation since took a junction from it: a report of another event that passes one without holding it again, or the deactivation of another event whose route meets it |
| `GreenWave.LastTouchDecides` | ml/emergency/green_wave.py:15-103 | over every run whatever, a junction is held if and only if some operation held it and none has released it since |
| `GreenWave.SharedJunctionIsLost` | ml/emergency/green_wave.py:61-92 | two runs with fresh ids and reports in order in which a reported event loses a shared junction, by a report and by a deactivation |
| `GreenWave.ReportKeepsWindowIff` | ml/emergency/green_wave.py:61-78 | a report leaves exactly the new window held if and only if it is in order, or the new window reaches the end of the route, or the look-ahead is 0 |
| `GreenWave.ExactWindowIff` | ml/emergency/green_wave.py:15-103 | over every run on disjoint routes with reports in any order, the held junctions of a route are from the first report on always exactly the window if and only if each later report is in order, or its window reaches the end of the route, or the look-ahead is 0 |
| `GreenWave.SeparateRunHolds` | ml/emergency/green_wave.py:15-103 | in such runs only junctions of active routes are held, and before the first report only ones of the first window |
| `GreenWave.BackwardReportKeepsTooMuch` | ml/emergency/green_wave.py:61-78 | a run in which a report of an earlier junction leaves a junction held outside the window |
| `RedisFraming.HeardAsSentIff` | simulation/sumo_live_bridge.py:418-427 | any run of frames, as the bridge writes them or as the server pushes them, is heard as the same bulk strings in the same order if and only if no channel and no message holds a CR and all texts measured in octets are ASCII |
| `RedisFraming.ServerReceivesIff` | simulation/sumo_live_bridge.py:139-144 | decoded octet by octet, a published frame is the command it means, with nothing left over, if and only if the channel is ASCII, since its length counts characters |
| `RedisFraming.AccentedChannelIsRefused` | simulation/sumo_live_bridge.py:140-141 | the server refuses a command whose channel is one accented letter |
| `RedisFraming.AccentedMessageTakesLineEnd` | simulation/sumo_live_bridge.py:424-427 | a message of one accented letter is heard with the line end behind it |
| `RedisFraming.CrIsLost` | simulation/sumo_live_bridge.py:418-427 | a message that is a CR is not heard as it was sent |
| `RedisFraming.ArrivesAsPublishedIff` | simulation/sumo_live_bridge.py:139-144 | from the bridge through the server to the listener any run of publications arrives as it was sent if and only if all channels and messages are ASCII without CR |
| `RedisFraming.ListenOctetsIff` | simulation/sumo_live_bridge.py:424-427 | a text comes back if and only if it is ASCII: its length counts octets, and the listener reads characters |
| `RedisFraming.TranslateFrame` | simulation/sumo_live_bridge.py:418-418 | the text mode of the reader turns the CR LF of a frame into LF and nothing else |
| `RedisFraming.DecimalRoundTrip` | simulation/sumo_live_bridge.py:425-425 | the decimal length is parsed back to itself |
| `RedisFraming.Utf8LengthIff` | simulation/sumo_live_bridge.py:140-141 | a string has as many octets as characters if and only if it is ASCII |
| `RedisFraming.ListenNoCr` | simulation/sumo_live_bridge.py:418-427 | no CR is ever heard, whatever was sent |
| `RedisFraming.StripMeans` | simulation/sumo_live_bridge.py:425-425 | what is stripped around a length is white space on both sides, and all of it |
| `RedisFraming.BadLengthStops` | simulation/sumo_live_bridge.py:424-425 | a length that is no number ends the listening with an error |
| `RedisFraming.CutShort` | simulation/sumo_live_bridge.py:426-427 | a text cut short by the end of the stream is heard as far as it goes |
| `RedisFraming.ListenDashboardCommands` | simulation/sumo_live_bridge.py:420-427 | the reading loop hears what the specification says, up to the end of the stream or a length that is no number |
| `SumoBridge.SumoLiveBridge.Start` | simulation/sumo_live_bridge.py:179-210 | the states in which the simulation steps are taken, for any batches of commands queued before each step |
| `SumoBridge.SumoLiveBridge.DrainQueue` | simulation/sumo_live_bridge.py:181-197 | the queue is processed to its end, in order |
| `SumoBridge.SumoLiveBridge.EnforceHold` | simulation/sumo_live_bridge.py:200-207 | in emergency mode every light is put back to phase 0 with the long duration |
| `SumoBridge.SumoLiveBridge.SetEveryLight` | simulation/sumo_live_bridge.py:355-406 | every light is set as the command says, and no other |
| `SumoBridge.DrainedMode` | simulation/sumo_live_bridge.py:185-190 | after draining, the mode is on if and only if some activation is followed by no deactivation, or it was on before and there is no deactivation |
| `SumoBridge.HoldInForce` | simulation/sumo_live_bridge.py:179-210 | at every step of every run the mode tells whether the last emergency command so far was an activation, and if it was every light is at phase 0, whatever overrides came in between |
| `SumoBridge.SkipsAdvance` | simulation/sumo_live_bridge.py:385-404 | from any phase, without emergency commands and forced state strings, only skips move the phase: each by one, round in a circle of four, whatever extensions and reductions lie between |
| `SumoBridge.ClearRestarts` | simulation/sumo_live_bridge.py:363-397 | whatever came before the last deactivation, the next step finds every light where the skips since then have moved it from phase 0 |
| `SumoBridge.DurationAddsUp` | simulation/sumo_live_bridge.py:398-404 | over any run of extensions and reductions the duration of a light is the largest of its start with all changes and of 5 seconds with the changes after any one reduction |
| `SumoBridge.ClearedDuration` | simulation/sumo_live_bridge.py:363-404 | after the last deactivation durations add up in this way from 10 seconds |
| `Reconnect.AutomaticProgress` | frontend/dashboard/src/services/websocket.ts:54-73 | every close and every timer firing strictly lowers the rank made of remaining attempts, pending timers and live sockets |
| `Reconnect.ComesToRest` | frontend/dashboard/src/services/websocket.ts:54-73 | left alone, after any history, a channel goes through at most as many closes and firings as its rank says |
| `Reconnect.RestsIff` | frontend/dashboard/src/services/websocket.ts:54-73 | nothing automatic can happen if and only if no timer is pending and no socket is left |
| `Reconnect.RetriesBounded` | frontend/dashboard/src/services/websocket.ts:58-69 | until the next open or disconnect at most 20 retries are scheduled, whatever else happens, and the counter counts them |
| `Reconnect.AttemptsCountRetries` | frontend/dashboard/src/services/websocket.ts:38-69 | after every run the counter is the number of retries scheduled since the last open or disconnect |
| `Reconnect.CloseSchedules` | frontend/dashboard/src/services/websocket.ts:54-73 | a close schedules a retry if and only if fewer than 20 have been counted; it forgets socket and heartbeat in any case |
| `Reconnect.FirstCloseAfterOpen` | frontend/dashboard/src/services/websocket.ts:36-72 | the first close after an open always schedules a retry, after 1000 to 1500 ms |
| `Reconnect.BackoffMeans` | frontend/dashboard/src/services/websocket.ts:64-64 | the backoff starts at one second and grows by half up to thirty |
| `Reconnect.DelayMeans` | frontend/dashboard/src/services/websocket.ts:65-66 | the delay is backoff and jitter, to the nearest millisecond |
| `Reconnect.SocketIs` | frontend/dashboard/src/services/websocket.ts:14-83 | a connect that finds no registered socket registers its own, until the next close or disconnect |
| `Reconnect.HeartbeatIs` | frontend/dashboard/src/services/websocket.ts:36-56 | the registered heartbeat is that of the last open if no close or disconnect came after it, and none otherwise |
| `Reconnect.DisconnectForgets` | frontend/dashboard/src/services/websocket.ts:85-98 | a disconnect forgets socket, timer, attempts and heartbeat, and cancels exactly the last timer and the heartbeat |
| `Reconnect.DelayBounds` | frontend/dashboard/src/services/websocket.ts:64-66 | every delay is between 1000 and 30500 ms, and at the cap if and only if it is at least the tenth attempt |
| `Reconnect.AtMostOneSocketIff` | frontend/dashboard/src/services/websocket.ts:14-79 | an event keeps a channel at no more than one live socket if and only if it does not connect while an unregistered socket is still to close |
| `Reconnect.AtMostOneSocketOverRunsIff` | frontend/dashboard/src/services/websocket.ts:14-98 | over every run, disconnects included, a channel has at most one live socket at all times if and only if no connect happens while an unregistered socket is still to close |
| `Reconnect.WithoutDisconnectNoSecond` | frontend/dashboard/src/services/websocket.ts:85-90 | without a disconnect of a registered socket that never happens |
| `Reconnect.KeepsSingleSocketIff` | frontend/dashboard/src/services/websocket.ts:85-98 | an event keeps the registered socket the only live one if and only if it is not a disconnect of a registered socket |
| `Reconnect.SingleSocketHolds` | frontend/dashboard/src/services/websocket.ts:14-83 | over every run without such a disconnect a channel has at most one live socket |
| `Reconnect.TwoSocketsAfterDisconnect` | frontend/dashboard/src/services/websocket.ts:54-98 | a run in which the late close of a disconnected socket leaves two live ones |
| `Reconnect.ReopensIff` | frontend/dashboard/src/services/websocket.ts:54-98 | after a disconnect closes and timer firings alone can open the channel again if and only if a close is still to come or a timer other than the last one set is pending |
| `Reconnect.DisconnectReopens` | frontend/dashboard/src/services/websocket.ts:54-98 | so they can after every disconnect of a registered live socket |
| `Reconnect.SingleHeartbeatHolds` | frontend/dashboard/src/services/websocket.ts:131-151 | over every run, disconnects included, a channel has at most one uncleared heartbeat interval |
| `WebSocketClient.WebSocketService.Connect` | frontend/dashboard/src/services/websocket.ts:14-83 | a registered channel is left alone; otherwise the new socket is registered; no other channel changes |
| `WebSocketClient.WebSocketService.OnOpen` | frontend/dashboard/src/services/websocket.ts:36-40 | the maps change as the step of an opened socket says, for this channel only |
| `WebSocketClient.WebSocketService.OnClose` | frontend/dashboard/src/services/websocket.ts:54-73 | the maps change as the step of a closed socket says, for this channel only, and the retry gets the stated delay |
| `WebSocketClient.WebSocketService.OnTimeout` | frontend/dashboard/src/services/websocket.ts:71-71 | a firing timer is no longer pending and connects again |
| `WebSocketClient.WebSocketService.Disconnect` | frontend/dashboard/src/services/websocket.ts:85-98 | the maps change as a disconnect says; a socket only starts to close |
| `WebSocketClient.WebSocketService.StartHeartbeat` | frontend/dashboard/src/services/websocket.ts:131-143 | the old interval is cleared before the new one is registered |
| `WebSocketClient.WebSocketService.StopHeartbeat` | frontend/dashboard/src/services/websocket.ts:145-151 | the registered interval is cleared |
| `Webster.CalculateWebsterOptimal` | ml/marl/webster_fallback.py:48-76 | cycle and one green per phase, under distinct keys; an error exactly for phases with zero total demand |
| `Webster.Splits` | ml/marl/webster_fallback.py:70-73 | the loop rounds each share of the effective green, and no other key appears |
| `Webster.CycleIsMonotone` | ml/marl/webster_fallback.py:58-66 | the cycle is in 40..150 and never shrinks when total demand grows, also across the cap |
| `Webster.CycleMeans` | ml/marl/webster_fallback.py:57-66 | below saturation the cycle is 11 / (1 - Y) to the nearest second, kept within 40 and 150 |
| `Webster.LargerDemandLongerGreen` | ml/marl/webster_fallback.py:71-73 | a larger demand never gets a shorter green |
| `Webster.GreenMeans` | ml/marl/webster_fallback.py:68-73 | a green time is the share y / Y of the cycle less 4, or y / 0.95 of 146 at saturation, to the nearest second |
| `Webster.TiesGoToEven` | ml/marl/webster_fallback.py:72-72 | half seconds go to the even neighbour |
| `Webster.GreensNearShare` | ml/marl/webster_fallback.py:71-73 | for any number of phases rounding moves the sum of greens by at most half a second per phase |
| `Webster.SplitsFillCycle` | ml/marl/webster_fallback.py:57-76 | for 0 < Y < 1 greens and lost time are within n/2 seconds of the cycle |
| `Webster.FillsCycleIff` | ml/marl/webster_fallback.py:57-76 | with at most seven phases they are if and only if Y < 1 |
| `Webster.SevenIsExact` | ml/marl/webster_fallback.py:57-76 | that equivalence holds for all plans of n phases if and only if n <= 7; with more, rounding can hide the overrun |
| `Webster.SaturationOverruns` | ml/marl/webster_fallback.py:60-73 | for Y >= 1 and at most fifteen phases greens and lost time exceed the cycle |
| `Webster.FifteenIsExact` | ml/marl/webster_fallback.py:60-73 | they do so for all saturated plans of n phases if and only if n <= 15 |
| `Webster.TwoHalvesOverrun` | ml/marl/webster_fallback.py:60-73 | two phases of 0.5 get 154 seconds of green in a cycle of 150 |
| `Webster.SaturatedSplits` | ml/marl/webster_fallback.py:60-73 | for Y >= 1 the greens are within n/2 of 146 Y / 0.95, since the cap divides demands that were not scaled |
| `Webster.TwoPhasesExactIff` | ml/marl/webster_fallback.py:68-73 | with two phases greens and lost time fill the cycle exactly, if and only if an odd effective green is not cut into two halves |
| `SignalAgent.SelectAction` | ml/marl/agent.py:55-76 | for any values and draws a valid action; when exploiting the first one of largest value among the valid ones |
| `SignalAgent.MaskedValues` | ml/marl/agent.py:69-73 | minus infinity everywhere but at the valid actions |
| `SignalAgent.ArgMax` | ml/marl/agent.py:74-76 | the first index of a largest value |
| `SignalAgent.SwitchesApart` | ml/marl/train_marl.py:63-70 | for any policy consecutive switches, and the first one and the start, are 10 to 60 steps apart, and no 60 steps pass without one |
| `SignalAgent.ElapsedBounded` | ml/marl/train_marl.py:63-70 | the elapsed time between steps stays below 60 |
| `SignalAgent.Episode` | ml/marl/train_marl.py:59-70 | every action of an episode of any length was valid at its elapsed time, and chosen from the values and draws of its step |
| `SignalAgent.ChosenMeans` | ml/marl/train_marl.py:59-70 | action k of an episode extends before 10 and switches from 60 seconds after the last switch on; in between it is the drawn one of the two, or switches exactly when that is worth more |
| `SignalAgent.ValidActionsMean` | ml/marl/agent.py:163-175 | extending and switching are valid below 60 and from 10 seconds on, in this order |
| `SignalAgent.MARLAgent.constructor` | ml/marl/agent.py:20-53 | target and policy start equal, the counter at zero |
| `SignalAgent.MARLAgent.TrainStep` | ml/marl/agent.py:82-131 | nothing changes while the memory is too small; otherwise networks, counter, exploration rate and metrics advance together |
| `SignalAgent.EpsilonScheduleIff` | ml/marl/agent.py:127-128 | for every floor, start and decay: after every number of training steps the exploration rate is the larger of the floor and the start times decay^k, if and only if a condition on the three numbers holds (for a non-negative decay, the floor decays to no more than itself or the first step stays above it; for a negative one, the start is zero, or the decay is at least -1 and two terms are bounded) |
| `Exploration.GeometricIff` | ml/marl/agent.py:127-128 | the same for the repeated multiplication and flooring on its own |
| `Exploration.SwingingRateFails` | ml/marl/agent.py:127-128 | floor 0.01, start 1 and decay -1: the second rate is 0.01, not 1 |
| `Exploration.RisingFloorFails` | ml/marl/agent.py:127-128 | floor 0.5, start 0.4 and decay 1.1: the second rate is 0.55, not 0.5 |
| `SignalAgent.TargetSchedule` | ml/marl/agent.py:121-125 | the target network is the policy as of the last multiple of the update frequency, or the first policy before that |
| `SignalAgent.PolicyIsLatest` | ml/marl/agent.py:116-123 | the policy network is the one the last training step produced |

## Left out

- Routing.RoutingEngine.CalculateRouteMetrics: states the distance only; ETA, minimum speed, congestion level and the rounding to two digits are easy sums and minima, and with them the division by a zero speed.
- Routing.RoutingEngine.UpdateEdgeWeights: demands non-zero capacities where a division by zero would raise an error, and leaves out the stored speed and travel time, which only the ETA reads.
- Routing.RoutingEngine.FindRoute: the answer has the path and its distance, not the other metrics.
- Routing.RoutingEngine.AstarSearch: the dictionary of dictionaries is a map from pairs of nodes and the heap list a multiset; f-scores, read only where just computed, are not stored, and absent scores stand for infinity.
- Floating-point rounding and the trigonometry of the great-circle distance: distances are an abstract metric over reals.
- Snmp.EncodeOidOctets: parts are numbers; splitting and parsing the dotted string is not modelled, nor is the table of named identifiers beyond the two the dispatcher uses.
- Snmp.SetRequestRoundTripIff: the decoder accepts integers that are not of minimal length, which the four-octet request id is for small ids.
- Modbus single-coil writes: four constants packed one after the other.
- SignalBridge.SignalControllerBridge.DispatchCommand: action strings are already upper-case values, and the result's hex strings, lengths and timestamps are left out.
- GreenWave.GreenWaveController.Activate: phases, priorities, vehicle types, timestamps and negative look-aheads are left out; every saved plan is the source's one mock plan, and the environment has both operations or is absent.
- GreenWave.GreenWaveController.UpdatePosition: the phase and the hold time given to the environment are left out.
- SignalBridge.VirtualCabinet.ApplyOverride: the time of the last update is left out.
- RedisFraming.ListenDashboardCommands: JSON parsing and filtering of payloads, forms of numbers other than plain digits, the replies to SUBSCRIBE, blocking and reconnecting are left out.
- SumoBridge.SumoLiveBridge.Start: simulator calls succeed; the ambulance, the camera, the telemetry after each step and the state strings of FLASH_ALL_RED are left out.
- WebSocketClient.WebSocketService.OnOpen: an open event may arrive for any socket whose close is to come, also after `disconnect`, which includes more runs than browsers produce; messages, callbacks and URLs are left out.
- SignalAgent.MARLAgent.TrainStep: the optimizer's result is an argument; replay memory, sampling, losses and gradients are left out, and so are rewards, saving and loading.
- Webster.CalculateWebsterOptimal: the plan table, the choice of plan by hour and `apply_to_sumo` are left out.
- The corridor network generator, and detection counting with its weights and densities: straightforward sums and constant tables.
- Databases, HTTP routes, authentication, MQTT, forecasting and vision models, and the user interface.
