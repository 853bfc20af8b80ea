# Netra: a verified model of the streaming pipeline

Netra watches cameras. A producer puts frames into shared memory and publishes pointers through Redis; inference reads
them; a chain of services turns detections into association events, behaviour scores and incidents; alerts are rate
limited and fanned out to clients; offline jobs group incidents and tune thresholds. Almost all of it is small mutable
state that is pruned, bounded or shared. This project models that state and proves what it means: for every run, every
interleaving and every input.

How the modules are laid out:

- `RingProtocol`, `ShmRing`, `FrameQueue`, `Transport`, `Workers`: the shared-memory ring buffer at the grain of single
  byte copies, the same code as objects over arrays, the bounded Redis list, the two together, and the producer's and
  consumer's rounds as methods.
- `CircuitBreaker`: the resilient Redis client, with any number of calls in flight.
- `Boxes`, `SpeedSpikes`, `Association`, `AssociationHistory`, `AssociationEvents`, `Confirmation`, `Pose`, `TheftFsm`,
  `LeakyBucket`, `FsmHistory`, `FsmSignals`, `Forgetting`, `PoseBuffer`, `RiskEngine`, `RiskHistory`: the stages from
  detections to incidents, each against its whole history.
- `BehaviorChain`, `Pipeline`, `IncidentCauses`, `PipelineRuns`: the stages together. `BehaviorChain` runs from the detections of one camera
  to the FSM's events, `Pipeline` from the FSM's inputs, whatever they are, to incidents.
- `Cooldown`, `FanOut`: the sliding-window alert limiter and the drop-oldest client queues.
- `Correlation`, `ThresholdTuner`: greedy incident grouping and the F-beta sweep.

The objects of the source that hold state are classes here, with their dictionaries as map fields. A method is proved
against a function of the old state, and the theorems are about that function over whole histories. Where calls interleave
(ring, queue, breaker, pipeline), each memory access, each Redis command or each stretch between two awaits is one step of
a state machine with history variables, and a theorem holds of every run.

Times and scores are exact reals and the clock is a parameter. Counters are unbounded. Memory is sequentially consistent.

Where code and comments differ, the model follows the code:

- `HALF_OPEN` is commented "one probe allowed" (`backend/core/redis_resilient.py:32`), but every call is let through:
  `CircuitBreaker.ManyProbes` reaches any number of probes, and `CircuitBreaker.OneProbeIffNoOverlap` says when there is one.
- The second generation check of `read` is there to catch an overwrite during the copy, but `write` bumps the generation
  only after its own copy, so a write still in flight goes unseen: `RingProtocol.ServedBytes` says what such a read can
  return, and `RingProtocol.MixedReadReachable` reaches all of it.
- The confirmation buffer is documented as counting frames, but counts events. `Confirmation.VoteMajority` holds always;
  `Confirmation.FrameRuleForAll` says for which rules the documented majority of frames is what it computes.
- A track unseen for over 10 s is forgotten, and with it its shelf visits and its concealments: `Forgetting.DroppedScoreLost`
  says exactly when no later score changes.
- The cooldown set counts distinct members, and a member is a timestamp with a random suffix:
  `Cooldown.ExactUnlessMembersRepeat` says exactly when that is the number of alerts.
- The ShopFormer score behind an incident must be younger than the behaviour event by any amount or older by less than
  5 s: the freshness test of `backend/services/risk/engine.py:122-124` is one-sided, see `RiskEngine.NewerScoreCounts`.

## Model

| member | source | states |
|---|---|---|
| RingProtocol.StepInv | shared/netra/shm.py:50-58 | every byte copied, counter bump and check keeps the invariant: a slot holds its latest completed write, possibly overlaid by the one write in flight, and a reader whose generation is still current holds bytes of those two only |
| RingProtocol.ServedBytes | shared/netra/shm.py:92-108 | in every interleaving a read with the pointer of write k passes the second check exactly when k is among the last n completed writes, and each byte it returns is that of write k or of write k+n in flight |
| RingProtocol.ServedWhole | shared/netra/shm.py:102-108 | if write k+n has not started by the second check, a served frame is exactly frame k |
| RingProtocol.MixedReadReachable | shared/netra/shm.py:55-57 | the bound is tight: for every ring, every write k, every frames and every set of bytes some run serves those bytes of write k+n over the rest of frame k |
| RingProtocol.GenerationTest | shared/netra/shm.py:95 | the generation comparison for the pointer of write k is equivalent to "k is one of the last n completed writes" |
| RingProtocol.PointersDistinct | shared/netra/shm.py:52-58 | no two writes ever return the same (slot, generation) pair |
| RingProtocol.WritePointer | shared/netra/shm.py:52-58 | the k-th write returns (k mod n, k div n + 1) |
| RingProtocol.QuietRead | shared/netra/shm.py:92-108 | a read that overlaps no write succeeds for write k exactly when k is among the last n writes, and then returns frame k |
| RingProtocol.WholeWriteReach | shared/netra/shm.py:50-58 | an uninterrupted write is a run of the byte-step protocol |
| ShmRing.RingBufferWriter.Write | shared/netra/shm.py:50-58 | the array-level write replaces exactly one slot of the flat segment, has the effect of an uninterrupted protocol write, keeps the invariant and returns the pointer of that write |
| ShmRing.RingBufferReader.Read | shared/netra/shm.py:92-108 | with no write in flight the array-level read returns the frame or the stale error as the undisturbed protocol read does; the overwritten error cannot occur |
| ShmRing.CopyInto | shared/netra/shm.py:53-55 | the copy changes the frame's bytes at the slot's offset and nothing else |
| ShmRing.SlotReplaced | shared/netra/shm.py:52-55 | writing at a slot's offset changes that slot and no other |
| FrameQueue.StepInv | backend/services/mediabridge/main.py:89-98 | every Redis command of the producer or of any consumer keeps the list a contiguous run of sequence numbers ending at the last push, within the depth |
| FrameQueue.RemovesIff | backend/services/mediabridge/main.py:89-98 | something leaves the list exactly when a consumer pops or the producer had read a full depth, and the list is not empty |
| FrameQueue.TrimMeans | backend/services/mediabridge/main.py:98 | `ltrim 0 stop` keeps exactly the entries up to `stop`, counted from the tail when negative |
| FrameQueue.QueueGuarantees | backend/services/mediabridge/main.py:89-98 | in every interleaving the list ends at the last push and stays within the depth, `ltrim` and the consumer's drain remove nothing, pops are strictly increasing, and pushed = popped + dropped + queued |
| FrameQueue.DrainUnreachable | backend/services/inference/main.py:122-134 | whenever a consumer reads the depth, the drain branch has nothing to discard |
| Transport.PoppedPointerTest | backend/services/inference/main.py:136-166 | a pointer popped from L entries passes the generation test exactly while L plus the writes completed beyond the last push is at most the slot count |
| Transport.WritesAheadAtPop | backend/services/mediabridge/main.py:75-98 | at the pop at most one write is ahead of the list |
| Transport.DeepPointerStale | backend/services/inference/main.py:136-170 | a pointer from deeper in the list than the ring has slots is turned down at the first check |
| Transport.PoppedPointerRead | backend/services/inference/main.py:163-170 | the read with a popped pointer succeeds exactly under that condition and returns the published frame but for bytes of the one write in flight over its slot |
| Workers.CameraWorker.PublishFrame | backend/services/mediabridge/main.py:75-98 | one frame is written whole, and the pointer of that very write is put at the head of the list, at the cost of the oldest when the list is full; the list stays current and within the depth |
| Workers.CameraWorker.Run | backend/services/mediabridge/main.py:67-98 | after any frames the list holds the pointers of the latest writes, as many as fit |
| Workers.PopLatest | backend/services/inference/main.py:120-138 | a round takes the oldest pointer, or, from a list deeper than the limit, the newest and empties it |
| Workers.PublishIsRun | backend/services/mediabridge/main.py:89-98 | publishing alone is the producer's four steps of the queue protocol |
| Workers.PopIsRun | backend/services/inference/main.py:122-138 | a consumer's round alone on any list the protocol produces is its two steps, without draining |
| CircuitBreaker.ResilientRedis.CheckCircuit | backend/core/redis_resilient.py:110-120 | a call proceeds unless the circuit is open and the last failure is under 60 s old, and an open circuit let through becomes half open |
| CircuitBreaker.ResilientRedis.RecordSuccess | backend/core/redis_resilient.py:122-126 | a success clears the failures and closes a half-open circuit only |
| CircuitBreaker.ResilientRedis.RecordFailure | backend/core/redis_resilient.py:128-137 | a failure is counted and timed, and the circuit is open from the fifth on |
| CircuitBreaker.ResilientRedis.Reconnect | backend/core/redis_resilient.py:84-108 | the retry loop stops at the first ping that succeeds, having slept the backoff of each attempt, and changes the breaker only then |
| CircuitBreaker.ResilientRedis.Call | backend/core/redis_resilient.py:139-161 | a call run from start to end is turned away, returns, raises or is still reconnecting as its command, pings and retry end; whenever it returns the circuit is closed without failures; and it leaves the breaker as its steps of the interleaved machine do from every state |
| CircuitBreaker.CallIsRun | backend/core/redis_resilient.py:139-161 | for every ending, a call that runs alone is these steps of the machine, whoever else is waiting, and they leave the breaker that `Call` leaves, so all theorems about steps apply to the method |
| CircuitBreaker.BackoffGrows | backend/core/redis_resilient.py:88 | the sleeps never shrink, double up to the sixth and are the cap from the seventh on |
| CircuitBreaker.StepInv | backend/core/redis_resilient.py:139-161 | every step of any call, cancellations included, keeps the failure count equal to the streak of failures since the last reset, and that equal to the calls of the streak still reconnecting plus those of it that were cancelled; closed means a count below five |
| CircuitBreaker.CountingInvariant | backend/core/redis_resilient.py:84-161 | that holds after every interleaving |
| CircuitBreaker.BreakerRemembers | backend/core/redis_resilient.py:122-137 | in every run the failure count is the number of failed commands since the last step that was a success or a reconnect, and the failure time is that of the last failed command of all |
| CircuitBreaker.FailuresPending | backend/core/redis_resilient.py:128-161 | in every run the failure count is at most the calls inside `_reconnect` plus those cancelled there since the last reset, and at most the former alone exactly when the cancelled ones are no more than the reconnecting calls of earlier streaks |
| CircuitBreaker.FailuresReconnecting | backend/core/redis_resilient.py:128-161 | without cancellation the failure count is at most the number of calls inside `_reconnect` |
| CircuitBreaker.ClosedIffShortStreaks | backend/core/redis_resilient.py:122-137 | a run stays CLOSED if and only if it never sees five failures without a success or reconnect in between |
| CircuitBreaker.FewCallersStayClosed | backend/core/redis_resilient.py:128-161 | while the calls reconnecting and those cancelled there since the last reset are fewer than five together, the breaker never leaves CLOSED |
| CircuitBreaker.OpensOnFifthFailure | backend/core/redis_resilient.py:128-137 | a closed circuit opens exactly on the fifth failure in a row, and at least five calls are then reconnecting or were cancelled there |
| CircuitBreaker.OpenRejects | backend/core/redis_resilient.py:110-120 | an open circuit admits a call exactly from 60 s after the last failure on, and only a probe or a reconnect ends it |
| CircuitBreaker.HalfOpenSteps | backend/core/redis_resilient.py:110-137 | a half-open circuit admits every call unchanged, closes exactly on a success, a ping or a retry that succeeds, and opens exactly on a failure that is at least the fifth of its streak; any other step leaves it half open |
| CircuitBreaker.OneProbeIffNoOverlap | backend/core/redis_resilient.py:110-120 | in every run there is never more than one command in flight while half open if and only if no call that finds or makes the circuit half open starts while another's command is in flight |
| CircuitBreaker.ManyProbes | backend/core/redis_resilient.py:110-120 | half open does not limit probes: for every n a run has n of them at once |
| CircuitBreaker.FailedProbeStaysHalfOpen | backend/core/redis_resilient.py:128-137 | a run in which a probe fails and the circuit stays half open, as the failures had been cleared by another probe |
| CircuitBreaker.CancelledCallersOpen | backend/core/redis_resilient.py:139-161 | five calls that fail and are cancelled one after the other open the circuit with none reconnecting |
| SpeedSpikes.UpdateMotion | backend/services/association/engine.py:221-244 | one update records the speed among the last ten and reports a spike as the rule says |
| SpeedSpikes.MedianHalves | backend/services/association/engine.py:228 | at least half the values are at most the median and at least half are at least it |
| SpeedSpikes.MedianOfOrdered | backend/services/association/engine.py:228 | however the values are put in order, the median is the middle one or the mean of the two in the middle |
| SpeedSpikes.FasterIsFarther | backend/services/association/engine.py:222-231 | the speed test is a comparison of squared displacement with the limit times the elapsed time |
| SpeedSpikes.MotionExact | backend/services/association/engine.py:221-244 | the kept state is the last box and time, the last ten of all speeds, and the last spike of the whole history |
| SpeedSpikes.SpikeExact | backend/services/association/engine.py:226-241 | a spike is reported exactly from the sixth fix on, when the speed exceeds the nine before it and the last spike of the whole history is over 2 s back |
| SpeedSpikes.DeployedSpike | backend/services/association/engine.py:226-241 | as deployed a fix is a spike exactly from the sixth on, when its speed exceeds 2.5 times the median of the nine before it, that median is above 1, and the last spike is over 2 s back |
| SpeedSpikes.SpikesSpaced | backend/services/association/engine.py:232 | two spikes of a track are more than 2 s apart |
| Boxes.OverlapIsShareOfItem | backend/services/association/engine.py:267-283 | the overlap test holds exactly when the meeting width and height are positive and their product reaches the threshold's share of the item's area |
| Boxes.MeetingHasArea | backend/services/association/engine.py:275-283 | where boxes meet the item has an area, so the division guard never acts, and the share is at most 1 |
| Boxes.InsideOverlaps | backend/services/association/engine.py:267-283 | an item wholly inside the person's box passes exactly for thresholds up to 1 |
| Boxes.InterIsMeeting | backend/services/association/engine.py:269-275 | a positive width and height come out exactly when they are those of a rectangle whose points are exactly the points of both boxes |
| Boxes.MeetIffPointInside | backend/services/association/engine.py:269-278 | there is such a rectangle exactly when some point lies strictly inside both boxes |
| Boxes.OverlapsIffShare | backend/services/association/engine.py:267-283 | for every two boxes and threshold the test holds exactly when that rectangle has at least the threshold's share of the item's area |
| Boxes.ApartNeverOverlaps | backend/services/association/engine.py:277-278 | boxes without a common inner point fail at every threshold, 0 and less included |
| Association.AssociationEngine.ProcessFrame | backend/services/association/engine.py:102-139 | one frame has the effect of registering items, pruning them, updating each person in order and dropping persons unseen for over 5 s |
| Association.AssociationEngine.Update | backend/services/association/engine.py:141-245 | one person's update leaves the next zone set, shelf counter and motion, and returns zone, shelf, pickup and spike events in this order |
| Association.AssociationEngine.Zones | backend/services/association/engine.py:155-175 | the zone loop returns exactly the zones that contain the person and the differences to the active ones |
| Association.AssociationEngine.NearbyItems | backend/services/association/engine.py:252-264 | exactly the items of the frame that are near the person, each once and in order |
| Association.ItemsNearExact | backend/services/association/engine.py:252-264 | the list that the counter of frames near a shelf stands on holds an item if and only if the frame detected it and it is near |
| Association.DeployedNear | backend/services/association/engine.py:252-264 | as deployed the list holds an item exactly when the frame detected it with its centre at most 80 px from the person's |
| Association.AssociationEngine.Pickups | backend/services/association/engine.py:204-216 | exactly the vanished items seen under 1.5 s ago inside the person's box, each once and in order |
| AssociationHistory.RegistryExact | backend/services/association/engine.py:110-120 | the pruned registry holds exactly the items last detected under 2 s before the last frame, as last detected in the whole history |
| AssociationHistory.PickupExact | backend/services/association/engine.py:204-216 | pruning is invisible: the ids found picked up are exactly the items absent now, last detected in the whole history under 1.5 s ago, and then inside the person's box |
| AssociationHistory.DeployedInside | backend/services/association/engine.py:204-216 | as deployed, an item vanished into a box exactly when it is absent now, was last detected in the whole history under 1.5 s ago, and the rectangle in which the boxes then met had at least 30% of the item's area |
| AssociationHistory.ZoneEventsAlternate | backend/services/association/engine.py:155-175 | with unique zone names enter and exit strictly alternate, starting with enter, and the active zones are those entered and not left |
| AssociationHistory.ActiveZonesContain | backend/services/association/engine.py:155-175 | the active zones are exactly those that contain the person's last box |
| AssociationHistory.ZoneKindsAtEnd | backend/services/association/engine.py:155-175 | a look reports of a zone one enter, one exit or nothing, as this look and the one before lie inside it or not |
| AssociationHistory.ShelfEventsExact | backend/services/association/engine.py:180-199 | SHELF_APPROACH is reported once at exactly the first look of each maximal run near an item, SHELF_INTERACTION once at exactly the looks of a run from its n-th on |
| AssociationHistory.SpikeEventsExact | backend/services/association/engine.py:221-241 | SPEED_SPIKE is reported once at exactly the looks that are spikes of the person's own trail |
| AssociationHistory.EngineRegistry | backend/services/association/engine.py:110-120 | the engine's registry depends on the items of the frames only |
| AssociationHistory.PersonsIndependent | backend/services/association/engine.py:122-137 | after any run each person's state is the one its own looks since its context was created lead to |
| AssociationEvents.PublishedIsHistory | backend/services/association/engine.py:122-139 | in every run the events published for a track since its context was created are, in order, those its own looks report |
| AssociationEvents.LastFrameAdds | backend/services/association/engine.py:122-139 | what a frame publishes for a track is what its looks in that frame add to the history, and nothing is published for it otherwise |
| AssociationEvents.PublishedZonesAlternate | backend/services/association/engine.py:155-175 | in every run the zone events published for a track and zone alternate, starting with enter, and tell whether the zone is active for the track |
| AssociationEvents.PublishedKinds | backend/services/association/engine.py:180-241 | in every run a frame with one detection of the track publishes SHELF_APPROACH once exactly at the first look of a run near an item, SHELF_INTERACTION once exactly from the n-th on, SPEED_SPIKE once exactly when the trail ends in a spike |
| AssociationEvents.PublishedCrossings | backend/services/association/engine.py:155-175 | likewise one enter, one exit or nothing for each zone, by the last two looks |
| AssociationEvents.UpdateStamped | backend/services/association/engine.py:141-245 | an update reports zones, shelf, pickups and spike in this order, each event with camera, track and time, an item exactly if it is a pickup and a zone exactly if it is about one |
| AssociationEvents.PublishedStamped | backend/services/association/engine.py:122-139 | every published event carries its engine's camera, its frame's time and a track the frame shows |
| AssociationEvents.PublishedPickups | backend/services/association/engine.py:110-120 | in every run a frame publishes ITEM_PICKUP of an item for a track if and only if the track is in the frame and the item vanished into its box, judged by all detections so far |
| AssociationEvents.DeployedPickups | backend/services/association/engine.py:204-219 | the same as deployed: absent now, detected under 1.5 s ago, and at least 30% of its box in the box of a detection of the track |
| AssociationEvents.PublishedPickupVanished | backend/services/association/engine.py:204-219 | every published ITEM_PICKUP names an item, and that item vanished into the box of the event's track |
| Confirmation.SignalConfirmationBuffer.Filter | backend/services/behavior/confirmation.py:55-97 | every call keeps the store equal to what all calls so far lead to and returns exactly the events, in order, that their keys' whole histories confirm, with this call as far as the event itself |
| Confirmation.SignalConfirmationBuffer.CastVote | backend/services/behavior/confirmation.py:72-87 | one event evicts an aged ballot, adds a vote and touches no other key |
| Confirmation.SignalConfirmationBuffer.MissUnseen | backend/services/behavior/confirmation.py:89-95 | exactly the camera's live keys not seen in the call get a vote against |
| Confirmation.KeysTell | backend/services/behavior/confirmation.py:72-76 | events vote together exactly when camera, track and kind agree |
| Confirmation.OccurrencesCounted | backend/services/behavior/confirmation.py:70-82 | a key gets as many votes in a call as the call has events of its track and kind |
| Confirmation.Judged | backend/services/behavior/confirmation.py:72-97 | what a call returns, also when a key comes more than once: the events whose verdict is for them |
| Confirmation.BallotRefines | backend/services/behavior/confirmation.py:72-95 | the bounded, lazily evicted deque is the end of the unbounded tally of all votes since the last long gap |
| Confirmation.TallyVotes | backend/services/behavior/confirmation.py:78-80 | that tally is the votes of all calls since the first sighting after the last gap longer than the age limit |
| Confirmation.VoteMajority | backend/services/behavior/confirmation.py:85-87 | an event is confirmed exactly when at least half of N votes are for it among the last N since the last long gap |
| Confirmation.FrameMajority | backend/services/behavior/confirmation.py:42-97 | with at most one event per key and call, exactly when at least half of N calls saw it among the last N since the last long gap |
| Confirmation.FrameRuleForAll | backend/services/behavior/confirmation.py:42-97 | the verdict is the majority of frames in all timely histories if and only if the window is at most two or the age limit negative; with at most one event per key and call it is so for every window |
| Confirmation.FramesConfirm | backend/services/behavior/confirmation.py:72-87 | duplicates only confirm more: in every timely history a majority of frames confirms |
| Confirmation.DuplicatesVoteTwice | backend/services/behavior/confirmation.py:72-87 | for every window of three or more, one call with two events of the key and Majority-2 calls with one confirm with one frame less than the majority |
| Pose.ConcealmentIffHandAtHip | backend/services/behavior/fsm.py:52-95 | a concealment is classified exactly when a visible wrist is within the threshold of the hip centre, and never as a bag |
| Pose.KindByWrists | backend/services/behavior/fsm.py:60-95 | each kind of concealment exactly by where the seen wrists are: near the hip centre, above the shoulder centre, 20 px above or below the hip centre, the left wrist before the right |
| Pose.NoHipNoConcealment | backend/services/behavior/fsm.py:67-74 | without a hip in sight there is no concealment |
| TheftFsm.TheftRiskFSM.Process | backend/services/behavior/fsm.py:165-202 | one frame updates every listed person in order, returns one event each and forgets tracks unseen for over 10 s |
| TheftFsm.TheftRiskFSM.UpdateTrack | backend/services/behavior/fsm.py:208-307 | one person's update changes that track only and is the update of which `FsmSignals` says which signals, points and stage it yields |
| TheftFsm.TheftRiskFSM.GroupByTrack | backend/services/behavior/fsm.py:173-175 | each track is handed exactly its own association events, each once and in order |
| FsmSignals.UpdateSignals | backend/services/behavior/fsm.py:214-307 | for every context and frame each signal occurs exactly as often as the events, the pose and the remembered times make it due, and the score is the decayed one plus 2, 2, 4, 3 to 4.5, 6 each and 1.5 points for them |
| FsmSignals.UpdateTold | backend/services/behavior/fsm.py:226-307 | the signals come in the order of their sections, each with the frame's time, its weight, the stage of its section, the score up to it, and the pose's kind if it is a hand signal |
| FsmSignals.HistorySignals | backend/services/behavior/fsm.py:214-283 | over a track's history how often each signal occurs follows from the inputs alone: a repeated interaction needs an earlier one, a hand or an exit a pickup within the window, a spike 3 s since the last |
| FsmSignals.ScoreIsEarned | backend/services/behavior/fsm.py:280-296 | the score from the inputs alone: the maximum over j of the points earned since j less the rate times the time since j |
| FsmSignals.StageOfHistory | backend/services/behavior/fsm.py:226-269 | the stage from the inputs alone: the last input with an exit, a hand, a pickup or a shelf interaction decides, in this order |
| LeakyBucket.FillIsHighestLevel | backend/services/behavior/fsm.py:280-283 | a level that leaks at a constant rate down to zero equals the maximum over j of what was poured since j less the leak since j |
| FsmHistory.UpdateFacts | backend/services/behavior/fsm.py:214-278 | an update adds to the decayed score exactly the weights it emits, and its concealments, exits, stage and timestamps follow from the frame and the two remembered times |
| FsmHistory.ScoreIsLeakyBucket | backend/services/behavior/fsm.py:280-296 | for non-decreasing times a live track's score is the maximum over j of the weights emitted from frame j on less the rate times the time since j |
| FsmHistory.ConcealmentIffRecentPick | backend/services/behavior/fsm.py:241-261 | a frame reports a concealment exactly when its pose shows one and some ITEM_PICKUP of the track lies within the window before it |
| FsmHistory.ExitIffConcealed | backend/services/behavior/fsm.py:263-269 | a frame emits one EXIT_AFTER_CONCEALMENT per exit-zone event if the context has reported a concealment by then, else none |
| FsmHistory.ExitSafety | backend/services/behavior/fsm.py:234-269 | behind every EXIT_AFTER_CONCEALMENT stand a concealment in the same context and a pickup within the window before that |
| FsmHistory.StageFollowsSignals | backend/services/behavior/fsm.py:226-269 | CONCEALMENT and HIGH_RISK_EXIT are reached only in a frame that emits the matching signal |
| FsmHistory.DominantIsLast | backend/services/behavior/fsm.py:309-314 | an event's concealment is that of the last signal that has one, and none exactly when no signal has |
| FsmHistory.TracksIndependent | backend/services/behavior/fsm.py:180-212 | after any run each track's context is the one its own inputs since its creation lead to |
| Forgetting.DroppedScoreLost | backend/services/behavior/fsm.py:197-200 | forgetting a track unseen for over 10 s leaves every later score of every return as it would have been if and only if its score could fade in 10 s, it had no shelf interaction and it had no concealment |
| Forgetting.ForgettingIsFree | backend/services/behavior/fsm.py:180-200 | the same for every history of a track, with the visits and concealments read off the history |
| Forgetting.ForgottenVisit | backend/services/behavior/fsm.py:217-222 | after shelf interactions at 100 and 111 the score is 4 if the track is remembered, 2 if it was forgotten |
| Forgetting.ForgottenConcealment | backend/services/behavior/fsm.py:263-269 | a track that concealed at 100 and leaves at 111 scores 6 if it is remembered, 0 if it was forgotten |
| PoseBuffer.PoseBuffer.Push | backend/services/shopformer/main.py:49-54 | the pose joins the last seq_len of its track and no other buffer changes; every buffer stays what its history makes it |
| PoseBuffer.PoseBuffer.Ready | backend/services/shopformer/main.py:56-63 | ready exactly when at least seq_len poses came since the track's last eviction and its last scoring is at least stride/10 seconds back; asking changes no buffer |
| PoseBuffer.PoseBuffer.GetSequence | backend/services/shopformer/main.py:65-68 | the coordinates of the last seq_len poses pushed for the track since its last eviction, in order, and the scoring time is noted |
| PoseBuffer.PoseBuffer.EvictStale | backend/services/shopformer/main.py:70-76 | exactly the tracks with a newest pose over 30 s old are forgotten |
| PoseBuffer.BufferIsTail | backend/services/shopformer/main.py:44-76 | for every run of pushes, scorings and evictions a track's buffer is the last seq_len poses pushed for it since its last eviction, with times and coordinates |
| PoseBuffer.ReadyIffEnoughShots | backend/services/shopformer/main.py:56-63 | readiness in terms of that history |
| RiskEngine.RiskEngine.UpdateShopformer | backend/services/risk/engine.py:101-104 | the score and its time replace the track's, and nothing else changes |
| RiskEngine.RiskEngine.UpdateBehavior | backend/services/risk/engine.py:106-185 | the weighted risk is recorded, and an incident is returned and timed exactly when it reaches the threshold outside the cooldown |
| RiskEngine.RiskEngine.PruneStale | backend/services/risk/engine.py:193-198 | exactly the tracks whose newest score and incident are both over the age are forgotten |
| RiskEngine.IncidentIff | backend/services/risk/engine.py:118-171 | for every state, event and hour: an incident is raised exactly when 2.25 per FSM point up to 20, 30 times the fresh ShopFormer score, 2 per interaction up to 10 and 1.5 in the evening reach 65 and the last incident is 30 s back; and its fields |
| RiskHistory.ScoreRemembered | backend/services/risk/engine.py:101-104 | in every run the engine holds the last ShopFormer score of the track, or a prune came over 60 s after it |
| RiskHistory.IncidentExact | backend/services/risk/engine.py:106-198 | in every punctual run, however prunes interleave, the same from the last score and the last incident of the whole history: pruning is never seen |
| RiskEngine.IncidentNeedsBoth | backend/services/risk/engine.py:118-168 | with no interactions counted an incident needs an FSM score of at least 134/9 and a fresh ShopFormer score of at least 37/60, and is MEDIUM |
| RiskEngine.BoundsAttained | backend/services/risk/engine.py:118-149 | both bounds are attained in the evening hours and miss the threshold outside them |
| RiskEngine.NewerScoreCounts | backend/services/risk/engine.py:122-124 | outside the cooldown an FSM score of 20 and a ShopFormer score of 1 raise an incident if and only if the latter is less than 5 s older than the behaviour event, so also from any time after it |
| RiskEngine.IncidentsSpaced | backend/services/risk/engine.py:151-155 | two incidents of a track are at least 30 s apart however prunes interleave, if wall time is monotone and events are processed within 30 s |
| RiskEngine.LagBoundExact | backend/services/risk/engine.py:193-198 | for every greater lag some punctual run has two incidents of a track closer than 30 s |
| Pipeline.StepInv | backend/services/risk/main.py:43-104 | every message handled by any service keeps the end-to-end invariant |
| Pipeline.IncidentsJustified | backend/services/risk/main.py:82-99 | every incident of every run has an FSM score of at least 134/9 from a published suspicious event, a published ShopFormer score of at least 37/60 fresher than 5 s, at least 24 suspicious events of the track before it, and severity MEDIUM |
| Pipeline.ScoreInv | backend/services/shopformer/main.py:105-151 | a ShopFormer score is published only after seq_len suspicious events of its track |
| PipelineRuns.ScoreIff | backend/services/shopformer/main.py:105-151 | handling an event publishes a score exactly when it is suspicious, 24 poses of its track came since the last eviction and the last scoring is 1.2 s back; the score is computed from the latest 24 of them |
| PipelineRuns.ScoreStands | backend/services/shopformer/main.py:126-151 | every published score of every run stands on the latest 24 poses of its track |
| PipelineRuns.EnginesAreRuns | backend/services/risk/main.py:43-104 | in every run each camera's risk engine and incidents are those of the scores, events and prunes it was handed |
| PipelineRuns.IncidentRaisedIff | backend/services/risk/main.py:82-104 | handling an event punctually raises an incident exactly when the scores, events and incidents of the camera up to there say so |
| IncidentCauses.RunExplained | backend/services/behavior/fsm.py:165-202 | in every run of the pipeline each camera's contexts are what its frames lead to, and each published event is, in score, signals, stage, concealment and the rest, the one its track's own history leads to |
| IncidentCauses.PublishedSound | backend/services/behavior/fsm.py:226-314 | every event published in any run, with the camera's frames in order and at positive times, carries exactly the signals, fields, concealment and stage that its track's inputs lead to, and an exit only with a concealment and a pickup behind it |
| IncidentCauses.IncidentCaused | backend/services/risk/engine.py:106-171 | behind every incident of every run, with the camera's frames in order, stands a stretch of the track's own inputs that emitted signals weighing at least 134/9 plus 1.8 per second of the stretch |
| BehaviorChain.StepInv | backend/services/behavior/main.py:58-110 | every message handled by the association or the behaviour service keeps: what reaches the FSM was published by the engine and passed by the votes of all calls so far, and each event is that of its track's history |
| BehaviorChain.ArrivedIffConfirmed | backend/services/behavior/main.py:92-97 | an event alone of its key in its call reaches the FSM if and only if the votes of its key's whole history confirm it |
| BehaviorChain.ExitHasVanishedItem | backend/services/behavior/main.py:58-104 | in every run with positive, non-decreasing frame times, behind every published EXIT_AFTER_CONCEALMENT stands a pickup of the same track, let through no later, of an item that had vanished into the track's box |
| BehaviorChain.NothingLost | backend/services/behavior/main.py:58-97 | unless the stream is trimmed or the buffer cleaned, every event taken from the stream is once and in order in a call of the confirmation buffer or still waiting |
| BehaviorChain.StreamIsReported | backend/services/association/main.py:54-64 | in every run the association stream is all the engine reported for all its frames, in order |
| BehaviorChain.RecentSelects | backend/services/behavior/main.py:76-84 | cleaning keeps exactly the events less than 2 s older than the latest frame, in order |
| BehaviorChain.EveryPersonReported | backend/services/behavior/main.py:99-104 | a frame publishes one event for each of its persons, which reports that person's history |
| Cooldown.RunScript | backend/services/alerting/cooldown.py:31-44 | the script's commands prune, count and add as the model's one-step script does |
| Cooldown.KeyLives | backend/services/alerting/cooldown.py:31-44 | the key expires one window's length after the last alert |
| Cooldown.CameraAlertCooldown.TryDispatch | backend/services/alerting/cooldown.py:79-89 | an attempt touches its camera's key only, keeps every key equal to what its attempts lead to, and is allowed as that key says |
| Cooldown.LimitsMembers | backend/services/alerting/cooldown.py:31-44 | for non-decreasing times, however the key expires, an alert is allowed exactly when the alerts in (now - W, now] carry fewer distinct members than its limit |
| Cooldown.RefinesHistory | backend/services/alerting/cooldown.py:31-44 | with distinct members an alert is allowed exactly when fewer than its limit were allowed in (now - W, now] in the whole history |
| Cooldown.ExactUnlessMembersRepeat | backend/services/alerting/cooldown.py:39 | the set limits as the history does, at every limit, if and only if no member repeats in the window |
| Cooldown.WindowBound | backend/services/alerting/cooldown.py:79-88 | with distinct members no half-open window of length W holds more alerts than the larger of the two limits |
| Cooldown.CollisionPassesLimit | backend/services/alerting/cooldown.py:39 | two alerts with one member let a third past a limit of two at one instant |
| FanOut.QueueGuarantees | backend/gateway/ws_router.py:163-197 | under every interleaving of offers and takes the queue is the latest consecutive messages offered, within capacity; each message is received at most once and in order; offered = received + dropped + queued |
| FanOut.ReceivedIsRecent | backend/gateway/ws_router.py:168-176 | whatever a taker receives is one of the latest `capacity` messages offered by then |
| FanOut.LosslessIffBacklogFits | backend/gateway/ws_router.py:168-176 | no message is lost if and only if an unbounded queue would never have exceeded the capacity, and the queues are then the same |
| FanOut.ClientQueue.PutDroppingOldest | backend/services/streaming/broadcaster.py:149-157 | the object's queue after the offer is what its whole history leads to |
| FanOut.ClientQueue.TakeTurn | backend/gateway/ws_router.py:190-194 | a turn takes the oldest message, or passes over an empty queue |
| FanOut.WebSocketManager.Connect | backend/gateway/ws_router.py:80-89 | a client starts with an empty queue of its own and is offered what is enqueued from then on |
| FanOut.WebSocketManager.Disconnect | backend/gateway/ws_router.py:91-92 | exactly the clients of that connection go, the others stay in order |
| FanOut.WebSocketManager.Enqueue | backend/gateway/ws_router.py:163-176 | every client whose filter matches is offered the message once, no other queue changes |
| FanOut.WebSocketManager.Dispatch | backend/gateway/ws_router.py:182-195 | a dispatcher's turn at any client, connected or not, keeps every client's account |
| FanOut.WebSocketManager.ClientSeesMatching | backend/gateway/ws_router.py:41-45 | a connected client's queue is the tail, of at most 20, of the messages matching its filter since it connected: all of them without a filter, exactly its camera's in order with one |
| FanOut.FrameBroadcaster.AddClient | backend/services/streaming/broadcaster.py:71-75 | a client gets a fresh queue at the end of its camera's list |
| FanOut.FrameBroadcaster.FanOut | backend/services/streaming/broadcaster.py:147-157 | every queue of the camera is offered the frame once and no other queue changes |
| FanOut.FrameBroadcaster.RemoveClient | backend/services/streaming/broadcaster.py:77-83 | the queue leaves its camera's list, the others keep their order; unknown ones are ignored |
| FanOut.FrameBroadcaster.ClientSeesFrames | backend/services/streaming/broadcaster.py:71-157 | a client's queue is the tail, of at most 2, of the frames sent on its camera since it was added |
| Correlation.GroupAround | backend/services/analytics/correlation.py:77-85 | the anchor's group is unused incidents linked to it, and no unused incident linked to it is left out |
| Correlation.Groups | backend/services/analytics/correlation.py:70-90 | at most `limit` disjoint groups, each of at least two incidents over at least two cameras pairwise within 120 s; two linked incidents are both left out only if the limit was reached with an anchor listed before both |
| ThresholdTuner.FBetaClosedForm | backend/services/eval/threshold_tuner.py:37-44 | for tp > 0 the score is (1+b2)tp / ((1+b2)tp + b2 fn + fp) |
| ThresholdTuner.FBetaRange | backend/services/eval/threshold_tuner.py:37-44 | the score lies in [0,1], is 0 only without true positives and 1 only without a weighted mistake |
| ThresholdTuner.SweepMonotone | backend/services/eval/threshold_tuner.py:71-73 | along the sweep tp + fn is constant and tp and fp never increase |
| ThresholdTuner.Calibrate | backend/services/eval/threshold_tuner.py:53-90 | a result exactly with enough samples; it is the smallest of the 21 grid points with the highest score, which the sets of found, missed and falsely alarmed rows decide |
| ThresholdTuner.BestBySets | backend/services/eval/threshold_tuner.py:66-78 | without the score: of the sets of found, missed and falsely alarmed rows, no grid point does better by whole-number products in which a false alarm weighs four times a miss, and every lower one does worse |
| ThresholdTuner.ScoreBySets | backend/services/eval/threshold_tuner.py:71-74 | two thresholds compare as these products do, also when nothing is found |
| ThresholdTuner.FewerFalseAlarmsWin | backend/services/eval/threshold_tuner.py:37-44 | with as many found and as many mistakes, fewer false alarms score higher |
| ThresholdTuner.GridIs | backend/services/eval/threshold_tuner.py:66-69 | the grid runs from 0.40 to 0.90 by 0.025 |
| ThresholdTuner.BestIsUnique | backend/services/eval/threshold_tuner.py:66-78 | there is only one such point |
| ThresholdTuner.PerfectScore | backend/services/eval/threshold_tuner.py:71-74 | a threshold scores 1 exactly when it separates confirmed from dismissed incidents and something was confirmed |
| ThresholdTuner.FindsSeparator | backend/services/eval/threshold_tuner.py:69-78 | if some grid point separates the labels, the calibrated threshold does, and is no higher |
| ThresholdTuner.SettlesOnLowest | backend/services/eval/threshold_tuner.py:75-77 | with nothing confirmed at or above 0.40 the sweep settles on 0.40, the lowest threshold |

## Left out

- Frontend, HTTP routes, authentication, neural networks, training, encoding, overlays: not part of this model; detections, keypoints and the anomaly score (any real in [0,1]) are inputs.
- Floating-point rounding, including `round(t, 3)`, `round(best_score, 4)` and the four-digit risk score: reals are exact.
- 64-bit wrap-around of counters and weak memory ordering: counters are unbounded, memory is sequentially consistent.
- Shared-memory allocation and reuse, `ReaderCache` retries and RTSP or file sources: operating system effects; the model starts from fresh segments.
- Frame-age drop and adaptive frame skipping after a pop (`backend/services/inference/main.py:146-161`): they only make a consumer give up a pointer.
- Redis and Postgres servers: only the lists, sorted sets and rows the commands touch; consumer-group acknowledgement and error paths are not modelled.
- Ring, frame queue, breaker calls, behaviour chain and pipeline run as state machines on values, because their steps interleave; `ShmRing`, `Workers` and `CircuitBreaker.ResilientRedis` are the same code as classes, whose methods run whole.
- `BehaviorChain` is one camera, as engine, buffer and FSM are per camera; the trim of the association stream makes it skip events, never repeat or reorder them.
- Frame sources, and everything the inference loop does with a frame it has read: frames are inputs.
- Clock skew between processes and the Redis server: one clock.
- `np.copyto` and `view.copy()` copy byte by byte: in the protocol in any order, in `ShmRing.CopyInto` in ascending order.
- Track contexts, person states and risk states are values stored in map fields, not aliased objects.
- `PersonState.held_items`, and the fields of `TrackContext` and `PersonState` that nothing reads: they influence no output.
- `metadata` and `confidence` of association events: constants, or ratios of numbers that decide the event.
- Shapely polygons: a zone's test is an arbitrary predicate on the box. The square root in a speed is an arbitrary distance function; `SpeedSpikes.FasterIsFarther` says what a Euclidean one means.
- Python's set order over vanished items: an arbitrary enumeration.
- `SignalConfirmationBuffer.clear_track`: removes map entries.
- `is_suppressed`, `mark_alerted` and `clear` of the cooldown: compatibility helpers that bypass the script.
- Dispatcher sends: a message counts as received when it is taken; after an await two dispatchers may send out of order.
- The hour of day in the risk engine is a parameter, as local time is.
- Incident ids, evaluation log, metrics and logging.
- The SQL queries behind grouping and calibration: their rows are inputs, for grouping with what the query guarantees (distinct ids, newest first, at most five times the limit).
- Event codecs, heatmap, occlusion, priority, context, cross-signal and accuracy metrics, and `correlated` of the incident correlator: they would only add easy members.
- `ModelRegistry.rollback`: not part of this model.
