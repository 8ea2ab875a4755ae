# Touch engine, modelled and proved

The engine turns a 40 by 60 grid of signals into finger events, and a 9 by 9 grid into a pen position. These
modules model its algorithms as they are written: loops over arrays and classes whose methods change their
fields where the program does so, functions where it computes. Every method is tied to a specification, and
lemmas about the specification state what the engine promises on every input, over every run.

| files | what they hold |
|---|---|
| `EngineTypes`, `Worklist`, `Sorting` | shared records and arithmetic; the work list of the two flood fills; a sort |
| `Matching`, `Assignment` | matchings, potentials and optimality; the assignment solver |
| `TrackerModel`, `TrackerFrame`, `TrackerLife`, `Tracker` | one tracker frame as a function; what a frame keeps; what runs keep; the tracker object |
| `TrackerFields`, `TrackerMotion` | a tracker frame read off contacts and tracks, field by field; fingers that move as predicted, and how long a touch is a Down |
| `GestureModel`, `GestureLife`, `GestureLimits`, `Gesture` | slot transitions; the language of reports; inputs that leave it and the exact conditions; the gesture machine object |
| `GestureMoves` | every transition with a contact and its exact condition; resting, held and dragging fingers over stretches of frames |
| `Pipeline`, `PipelineLimits` | tracker and gesture machine in a row; the runs that give its exact conditions |
| `Peaks`, `PeakFilters`, `Detector` | local maxima and the strongest twenty; filters and palm test said of the heat map; the detector object |
| `CellSums`, `ContactMeans` | sums over sets of cells; contacts and border sums as such sums |
| `ZoneGrid`, `ZoneInfo`, `ZoneFlood`, `ZoneClose`, `ZonePeaks`, `ZoneRun`, `ZoneContacts`, `Zones`, `Expander`, `Extractor` | grid and paths; zone sums; the flood; the close; peak lists; all floods of a frame; contacts; the expander object; detector and expander in a row |
| `EdgeComp`, `EdgeMeaning` | edge compensation of a dimension and of all contacts; what width, share and blend mean |
| `FrontEnd`, `ZoneLimits` | everything from the heat map to the tracker in a row; frames at the edge of what the zones promise |
| `ZoneHistories`, `Pairing` | every frame has a flood history; which lists every sort cuts to the right entries |
| `Afe`, `AfeLife`, `AfeChoice` | pen frequency switching; its runs; when a switch is requested, and to which frequency |
| `StylusGrid`, `StylusPeak`, `Coordinate`, `PostFilter`, `StylusChain` | connected regions; peak search and projection; interpolation; the filter chain; all of them in a row |
| `PenMeaning` | the pen's sums, offsets and filter steps said without their helpers |

`dafny verify dfyconfig.toml` checks the whole project.

Coordinates, costs and filter states are real numbers; grid cells are numbered row by row, and the nested row
and column loops of the program appear as one loop over the cells in the same order. Integer divisions that
truncate, 16-bit and 32-bit conversions and counter wraps are written out where they matter. Square and cube
roots are parameters. The configuration is fixed during a run.

Some promises turned out to hold under a condition only; the condition is proved to be exact, and the failing
runs are part of the project:

- one event per id and frame, lift-offs that meet idle slots only, and the report language (Down+ Move* Up)* of
  the whole chain: `PipelineLimits.OneReportIff`, `PipelineLimits.UpsFindIdleIff`, `PipelineLimits.ChainLanguageIff`;
- the report language of the gesture machine alone, the closeness of reported positions, and the position of an
  Up: `GestureLimits.LanguageIffInstant`, `GestureLimits.LanguageIffUpFree`, `GestureLimits.CloseIff`,
  `GestureLimits.UpRepeatsIff`;
- contacts on the panel, which 32-bit sums can break: `ZoneContacts.ContactTrueIff`, `ZoneLimits.OnCentresIff`;
- the border sums that edge compensation pairs with a contact by its index: `FrontEnd.OwnBorderSumsIff` in frames
  without a cut, `FrontEnd.OwnAfterCutIff` after one;
- the mirror symmetry of the pen coordinate: `Coordinate.MirrorsIff`;
- the distance between frequency requests, which the counter's wrap can break because frame zero doubles as
  "never switched": `AfeLife.SessionsApartIff` from power-up, `AfeLife.SpacedIffFarFromWrap` from any request.

On the far border edge compensation cuts a coordinate to 1/256 before it moves it, so only coordinates that are
whole in 1/256, as the zone centroids are, or that lie in the blend are sure to move outward
(`EdgeComp.FarMovesOutward`).

## Model

| member | source | states |
|---|---|---|
| Assignment.SolveAssignment | EGoTouchService/Engine/Reporting/TouchTracker.cpp:26-78 | For every rectangular cost matrix, wide, square or tall (solved transposed) or empty, the result is a minimum-total-cost matching among all matchings of greatest size, and that size is the smaller dimension |
| Assignment.SolveWide | EGoTouchService/Engine/Reporting/TouchTracker.cpp:44-70 | The solver for at least as many columns as rows returns a matching together with potentials that certify it |
| Assignment.Augment | EGoTouchService/Engine/Reporting/TouchTracker.cpp:47-67 | One outer pass seats exactly one more row: the earlier rows stay matched, each to its own column, and the potentials stay feasible and tight on matched pairs |
| Assignment.Search | EGoTouchService/Engine/Reporting/TouchTracker.cpp:51-65 | The inner search ends at a free column: every pass uses one more column, and the reached columns form a tree rooted at column 0 |
| Assignment.Reach | EGoTouchService/Engine/Reporting/TouchTracker.cpp:52-59 | Scanning the unused columns picks the one of least reduced cost, records where it was reached from, and finds one below the infinity bound |
| Assignment.Relax | EGoTouchService/Engine/Reporting/TouchTracker.cpp:54-59 | The scan of one row leaves in every unused column the least reduced cost so far, with the used column it comes from |
| Assignment.Shift | EGoTouchService/Engine/Reporting/TouchTracker.cpp:60-63 | The update of the potentials adds the step to used rows, takes it from used columns and from the remaining distances, and changes nothing else |
| Assignment.Settle | EGoTouchService/Engine/Reporting/TouchTracker.cpp:51-65 | Shifting by the step keeps feasibility, keeps every tree edge tight and makes the newly reached column tight |
| Assignment.Walk | EGoTouchService/Engine/Reporting/TouchTracker.cpp:66 | The walk back along `way` to column 0 ends (it visits no column twice); along its path every column takes the row of the next, and all other columns keep theirs |
| Assignment.FreeColumn | EGoTouchService/Engine/Reporting/TouchTracker.cpp:65 | While fewer rows than columns are matched some column is free, so the search cannot run out of columns |
| Assignment.ReducedBelowInf | EGoTouchService/Engine/Reporting/TouchTracker.cpp:44-58 | Costs within a quarter of the infinity bound keep every reduced cost below it, so a column always beats the bound |
| Assignment.DualsAreFeasible | EGoTouchService/Engine/Reporting/TouchTracker.cpp:45-70 | The final potentials never exceed a cost, are at most zero on columns and zero on unmatched columns |
| Assignment.ReadOffMatches | EGoTouchService/Engine/Reporting/TouchTracker.cpp:68-70 | Reading the columns off row by row gives an injective matching of all rows |
| Assignment.CertifyTransposed | EGoTouchService/Engine/Reporting/TouchTracker.cpp:72-77 | The matching of the transposed matrix, read the other way round, is certified for the original matrix |
| Matching.CertifiedIsOptimal | EGoTouchService/Engine/Reporting/TouchTracker.cpp:26-78 | Weak duality: a matching with feasible potentials that are tight on its pairs and vanish off them is optimal among all injective assignments |
| Matching.CertifiedIsLargest | EGoTouchService/Engine/Reporting/TouchTracker.cpp:26-78 | No injective assignment matches more pairs than a certified one |
| Matching.CertifiedIsCheapest | EGoTouchService/Engine/Reporting/TouchTracker.cpp:26-78 | No injective assignment of the same size costs less than a certified one |
| TrackerModel.AllocationFailsOnlyWhenFull | EGoTouchService/Engine/Reporting/TouchTracker.cpp:98-108 | The id search returns 0 exactly when every id is used by the old or the new tracks |
| TrackerModel.PairingIsInjective | EGoTouchService/Engine/Reporting/TouchTracker.cpp:186-241 | Whatever the solver, the distance gate and the fallback do, the pairing is a partial injection from contacts to tracks |
| TrackerModel.GreedyIsMatching | EGoTouchService/Engine/Reporting/TouchTracker.cpp:196-204 | The greedy alternative never gives one track to two contacts |
| TrackerModel.GatedIsMatching | EGoTouchService/Engine/Reporting/TouchTracker.cpp:207-220 | Gating only dissolves pairs |
| TrackerModel.RescuedIsMatching | EGoTouchService/Engine/Reporting/TouchTracker.cpp:222-240 | The fallback only adds pairs of free contacts and free tracks |
| Tracker.TouchTracker.constructor | EGoTouchService/Engine/Reporting/TouchTracker.h:50-51 | A new tracker has no tracks and starts its ids at 1 |
| Tracker.TouchTracker.AllocateId | EGoTouchService/Engine/Reporting/TouchTracker.cpp:98-108 | The loop returns the first id from the seed on, cyclically, that no track uses, or 0 |
| Tracker.TouchTracker.Gate | EGoTouchService/Engine/Reporting/TouchTracker.cpp:207-220 | Exactly the pairs farther apart than the boosted threshold are dissolved |
| Tracker.TouchTracker.Rescue | EGoTouchService/Engine/Reporting/TouchTracker.cpp:222-240 | Each unmatched inner contact in turn takes the nearest free track when it is within the fallback distance |
| Tracker.TouchTracker.Pair | EGoTouchService/Engine/Reporting/TouchTracker.cpp:180-241 | Optimal or greedy matching, gate and fallback together give a pairing as specified, injective on tracks |
| Tracker.TouchTracker.DropNearPen | EGoTouchService/Engine/Reporting/TouchTracker.cpp:116-129 | Contacts near a strong pen are removed unless they are both strong and large |
| Tracker.TouchTracker.ResolveStylusAft | EGoTouchService/Engine/Reporting/TouchTracker.cpp:132-144 | The pen context: last position, frames since the pen, and whether it is recent enough |
| Tracker.TouchTracker.BuildLive | EGoTouchService/Engine/Reporting/TouchTracker.cpp:243-346 | The first loop yields exactly the live contacts and tracks of the specification, the size caps never cutting anything |
| Tracker.TouchTracker.BuildLifted | EGoTouchService/Engine/Reporting/TouchTracker.cpp:348-378 | The second loop ages, lifts and drops exactly the unmatched tracks |
| Tracker.TouchTracker.DropGhosts | EGoTouchService/Engine/Reporting/TouchTracker.cpp:380-409 | The ghost filter removes the weaker contact of every ghost pair together with its track |
| Tracker.TouchTracker.Process | EGoTouchService/Engine/Reporting/TouchTracker.cpp:167-414 | One frame takes the tracker from state to state as specified, keeps every stored track sound and reports distinct ids between 1 and 20 |
| TrackerFrame.FrameKeepsTracks | EGoTouchService/Engine/Reporting/TouchTracker.cpp:243-378 | After a frame track ids are distinct and in range, missed counts at most hold + 1, and the Up flag is set exactly at hold + 1 |
| TrackerFrame.LiveKeepsIds | EGoTouchService/Engine/Reporting/TouchTracker.cpp:250-346 | Through the first loop new ids stay distinct from each other and from all tracks, and a contact is passed over only when it is rejected or every id is taken |
| TrackerFrame.LiftKeepsIds | EGoTouchService/Engine/Reporting/TouchTracker.cpp:348-378 | Through the second loop the ids of waiting and lifted tracks stay distinct, so the caps never cut |
| TrackerFrame.FateOfId | EGoTouchService/Engine/Reporting/TouchTracker.cpp:250-378 | What one frame does to one id: seen again, waiting, lifted exactly when the hold is exceeded, dropped in the frame after |
| TrackerLife.StepKeepsState | EGoTouchService/Engine/Reporting/TouchTracker.cpp:167-414 | Every frame, ghost filter and pen suppression included, keeps the state invariant and treats every id as its fate says or clears it |
| TrackerLife.NewIdsAreUnused | EGoTouchService/Engine/Reporting/TouchTracker.cpp:303-305 | A contact that starts a track never takes an id a stored track still has |
| TrackerLife.NoContactLost | EGoTouchService/Engine/Reporting/TouchTracker.cpp:250-346 | Every admitted contact is reported and stored, unless it was too weak to start a track or all ids were taken |
| TrackerLife.RunKeepsState | EGoTouchService/Engine/Reporting/TouchTracker.cpp:167-414 | The state invariant holds after every frame of every run |
| TrackerLife.RunReportsDistinctIds | EGoTouchService/Engine/Reporting/TouchTracker.cpp:297-298 | Every frame of every run reports at most 20 contacts with distinct ids in 1 to 20 |
| TrackerLife.RunIsLife | EGoTouchService/Engine/Reporting/TouchTracker.cpp:348-378 | In a run without ghost filter and global pen suppression every id lives through one fate after another |
| TrackerLife.ExactlyOneUp | EGoTouchService/Engine/Reporting/TouchTracker.cpp:355-377 | Once an id is no longer seen, exactly one Up follows, hold + 1 frames later, and the track is dropped in the frame after it |
| TrackerLife.UpHasCause | EGoTouchService/Engine/Reporting/TouchTracker.cpp:355-372 | Every Up follows a sighting exactly hold + 1 frames earlier, with silence in between |
| TrackerLife.NoEarlyReuse | EGoTouchService/Engine/Reporting/TouchTracker.cpp:98-108 | A fresh contact is given the id of an Up two frames after the Up at the earliest |
| PipelineLimits.LiftedIdReturns | EGoTouchService/Engine/Reporting/TouchTracker.cpp:253-299 | The old contact may come back sooner: for every hold there is a run that reports the id live, and not as new, in the frame right after its Up, because the lifted track is still stored |
| TrackerFields.AdmittedMeans | EGoTouchService/Engine/Reporting/TouchTracker.cpp:116-129 | Of the first twenty contacts exactly those get in, in order, that are not within the radius of a strong valid pen or are both strong and large |
| TrackerFields.PenRemembered | EGoTouchService/Engine/Reporting/TouchTracker.cpp:132-144 | What is kept of the pen is its last valid position and the frames since then, and it counts as recent exactly within the configured number of frames |
| TrackerFields.FollowedMotion | EGoTouchService/Engine/Reporting/TouchTracker.cpp:253-276 | In every frame a reported contact with a previous index carries the id of the track there, and leaves a track at its own position whose velocity is the way from the old position to the new one, one frame older and not missed |
| TrackerFields.FollowedState | EGoTouchService/Engine/Reporting/TouchTracker.cpp:263-270 | It is a Down exactly while the track was at most one frame old or had debounce frames left, each frame uses one up, and the stored size is the greater of the old one and the estimate |
| TrackerFields.FollowedSilence | EGoTouchService/Engine/Reporting/TouchTracker.cpp:277-295 | It is withheld exactly while the pen was there recently and an earlier silence still runs or it is close to the pen and palm-like, weak and small, or too young; the silence left over is exact |
| TrackerFields.BegunFields | EGoTouchService/Engine/Reporting/TouchTracker.cpp:302-346 | A reported contact without a previous index comes from an admitted one that is not too weak, starts a track from rest under an unused id as a Down, with the debounce frames its weakness, size and place call for, and is shown exactly when the pen leaves it no silence |
| TrackerFields.NextFreeId | EGoTouchService/Engine/Reporting/TouchTracker.cpp:98-108 | The id search goes round the ring of twenty: the answer is the first id from the seed on that no track holds |
| TrackerFields.SeedAdvances | EGoTouchService/Engine/Reporting/TouchTracker.cpp:326-346 | With the ghost filter off the search of the next frame starts behind the id of the last new contact reported, or where it started before when there was none |
| TrackerFields.WaitingFields | EGoTouchService/Engine/Reporting/TouchTracker.cpp:349-377 | A stored track without a contact stays where it was, at rest, one frame more missed, with age, size and debounce frames kept |
| TrackerFields.LiftedFields | EGoTouchService/Engine/Reporting/TouchTracker.cpp:355-372 | A lift-off names a track missed for exactly the hold and carries its last position and measurements |
| TrackerFields.FollowedWithin | EGoTouchService/Engine/Reporting/TouchTracker.cpp:207-240 | No id jumps: a followed contact is within the gate of where its track was expected (wider at the border and for small touches), or off the border and within the always-match distance |
| TrackerFields.BegunAlone | EGoTouchService/Engine/Reporting/TouchTracker.cpp:221-240 | No id is lost for nothing: when a contact off the border starts a track, every stored track within the always-match distance has a contact of its own |
| TrackerFields.NoGhostLeft | EGoTouchService/Engine/Reporting/TouchTracker.cpp:380-409 | After the ghost filter no live contact is on the receive line of a stronger one and too weak beside it |
| TrackerFields.GhostHasCause | EGoTouchService/Engine/Reporting/TouchTracker.cpp:384-399 | Whatever the filter takes was on the receive line of another live contact of the frame and too weak beside it |
| TrackerMotion.ExpectedKeepIds | EGoTouchService/Engine/Reporting/TouchTracker.cpp:186-241 | When every contact is where exactly one stored track was expected, each is reported under the id of that track: assignment by cost and greedy choice agree, gate and fallback do not interfere |
| TrackerMotion.SteadyKeepIds | EGoTouchService/Engine/Reporting/TouchTracker.cpp:186-276 | Over two frames, fingers that keep their velocity keep their ids however their paths cross, unless another track is expected where one of them is |
| TrackerMotion.DownLasts | EGoTouchService/Engine/Reporting/TouchTracker.cpp:263-340 | Over runs, a touch that stays is a Down for exactly its first two frames, or as many as it is held back if that is more, and a Move from then on |
| Gesture.TouchGestureStateMachine.UpdateSlot | EGoTouchService/Engine/Reporting/TouchGestureStateMachine.cpp:132-302 | The transition of one slot, field by field, in all five phases |
| Gesture.TouchGestureStateMachine.MapContacts | EGoTouchService/Engine/Reporting/TouchGestureStateMachine.cpp:15-30 | Each slot gets the last contact of its id, unless that contact is an Up |
| Gesture.TouchGestureStateMachine.AdvanceSlots | EGoTouchService/Engine/Reporting/TouchGestureStateMachine.cpp:32-52 | The first phase advances every slot once and silences the contact of a slot still cooling down |
| Gesture.TouchGestureStateMachine.RewriteContacts | EGoTouchService/Engine/Reporting/TouchGestureStateMachine.cpp:54-99 | The second phase rewrites event and position of every contact from its slot |
| Gesture.TouchGestureStateMachine.EmitUps | EGoTouchService/Engine/Reporting/TouchGestureStateMachine.cpp:101-124 | The third phase appends one Up per slot past its grace and resets the slot |
| Gesture.TouchGestureStateMachine.Process | EGoTouchService/Engine/Reporting/TouchGestureStateMachine.cpp:14-127 | A frame yields exactly the specified slots and contacts |
| GestureLife.FrameSplitsById | EGoTouchService/Engine/Reporting/TouchGestureStateMachine.cpp:14-127 | With distinct ids a frame acts on every id by itself: its reports and next slot depend on its own slot and contact only |
| GestureLife.RunSplitsById | EGoTouchService/Engine/Reporting/TouchGestureStateMachine.cpp:14-127 | So does every run of frames |
| GestureLife.SlotAlwaysOk | EGoTouchService/Engine/Reporting/TouchGestureStateMachine.cpp:101-124 | At every frame boundary a slot pending release came from a press candidate and has missed between 1 and the grace number of frames |
| GestureLife.DragEndsAtOnce | EGoTouchService/Engine/Reporting/TouchGestureStateMachine.cpp:221-258 | Dragging and long press end with an Up in the very frame the contact vanishes |
| GestureLife.PressEndsAfterGrace | EGoTouchService/Engine/Reporting/TouchGestureStateMachine.cpp:160-167 | A press candidate ends with exactly one Up, after exactly grace + 1 missing frames |
| GestureLife.SilentAfterUp | EGoTouchService/Engine/Reporting/TouchGestureStateMachine.cpp:37-50 | The frame after an Up reports nothing for the id |
| GestureLife.LanguageHolds | EGoTouchService/Engine/Reporting/TouchGestureStateMachine.cpp:32-124 | With one press frame the reports of an id over any run form a prefix of (Down+ Move* Up)*, as long as every lifted contact in the input meets an idle slot or a slot that releases in that frame, or no grace is granted |
| GestureLimits.LanguageIffInstant | EGoTouchService/Engine/Reporting/TouchGestureStateMachine.cpp:66-97 | On all inputs the reports follow that language if and only if one frame presses and no grace is granted |
| GestureLimits.LanguageIffUpFree | EGoTouchService/Engine/Reporting/TouchGestureStateMachine.cpp:24-30 | On inputs without lifted contacts they follow it if and only if one frame presses, whatever the grace |
| GestureLimits.DragWithoutDown | EGoTouchService/Engine/Reporting/TouchGestureStateMachine.cpp:66-83 | With more than one press frame a drag can be reported without a Down |
| GestureLimits.DownMoveDown | EGoTouchService/Engine/Reporting/TouchGestureStateMachine.cpp:92-97 | With a grace window a returning lifted contact is reported Down, Move, Down |
| GestureLimits.CloseIff | EGoTouchService/Engine/Reporting/TouchGestureStateMachine.cpp:189-218 | For every configuration: each position reported with a live contact is within the drag threshold of it on all runs if and only if there is no grace, or the long press always comes before the Down (as many press frames as long press frames, and a tolerance no smaller than the drag threshold) |
| GestureLimits.RecoveredFarAway | EGoTouchService/Engine/Reporting/TouchGestureStateMachine.cpp:280-297 | In every other configuration a contact that returns elsewhere is reported at the old anchor, beyond the drag threshold |
| GestureLife.AnchorLocked | EGoTouchService/Engine/Reporting/TouchGestureStateMachine.cpp:189-216 | Throughout press candidate and long press the reported position is the anchor |
| GestureLife.UpRepeatsLastPosition | EGoTouchService/Engine/Reporting/TouchGestureStateMachine.cpp:107-121 | With one press frame every Up carries exactly the position last reported for its id |
| GestureLimits.UpRepeatsIff | EGoTouchService/Engine/Reporting/TouchGestureStateMachine.cpp:66-121 | That holds on all inputs if and only if one frame presses: with more, a short touch is reported as an Up and nothing before it |
| GestureMoves.IdleMoves | EGoTouchService/Engine/Reporting/TouchGestureStateMachine.cpp:37-52 | A first contact makes its slot a press candidate anchored there and says Down exactly when one frame presses; in the frame after an Up it is silent and only ends the cooldown |
| GestureMoves.PressMoves | EGoTouchService/Engine/Reporting/TouchGestureStateMachine.cpp:160-218 | A press candidate with a contact drags exactly when it is beyond the drag threshold of the anchor; otherwise it becomes a long press exactly from the configured age on and within the tolerance; otherwise it stays, and says Down exactly when firm for the press frames |
| GestureMoves.HoldMoves | EGoTouchService/Engine/Reporting/TouchGestureStateMachine.cpp:243-275 | A long press with a contact stays one exactly while the contact is within the drag threshold of the anchor, reporting the anchor, and drags otherwise, reporting the contact |
| GestureMoves.DragMoves | EGoTouchService/Engine/Reporting/TouchGestureStateMachine.cpp:221-240 | A drag with a contact goes on and reports the contact where it is |
| GestureMoves.RecoverMoves | EGoTouchService/Engine/Reporting/TouchGestureStateMachine.cpp:280-297 | A contact back within the grace resumes the press candidate at the old anchor, age and firmness, wherever it is |
| GestureMoves.MissMoves | EGoTouchService/Engine/Reporting/TouchGestureStateMachine.cpp:160-167 | A press candidate without a contact waits, remembering all, when there is a grace, and ends with one Up at the anchor when there is none |
| GestureMoves.HeldStays | EGoTouchService/Engine/Reporting/TouchGestureStateMachine.cpp:243-275 | Over any stretch of contacts within the drag threshold a long press lasts and every report is a Move at the anchor |
| GestureMoves.DragFollows | EGoTouchService/Engine/Reporting/TouchGestureStateMachine.cpp:221-240 | Over any stretch of contacts a drag reports each of them where it is |
| GestureMoves.RestingFinger | EGoTouchService/Engine/Reporting/TouchGestureStateMachine.cpp:138-218 | A finger that comes down on an idle slot and rests reports nothing before the press frames, Down at its first position until the long-press age, and Move there from then on, for as long as it stays |
| GestureMoves.OutputKeepsContacts | EGoTouchService/Engine/Reporting/TouchGestureStateMachine.cpp:54-99 | Contacts handed on keep everything but event and position, and the position too when they are not reported |
| GestureMoves.UpCarries | EGoTouchService/Engine/Reporting/TouchGestureStateMachine.cpp:101-124 | The Up of a slot that ends is in the output with the slot's last position and the measurements of the last contact it saw |
| Pipeline.ChainInStep | EGoTouchService/Engine/Reporting/TouchTracker.cpp:348-378 | Over every run of tracker and gesture machine an active slot has a track seen in the last frame, and a pending slot has missed as many frames as its track |
| Pipeline.UpsFindIdleSlots | EGoTouchService/Engine/Reporting/TouchGestureStateMachine.cpp:24-52 | With a hold longer than the grace a tracker Up only ever meets an idle slot |
| Pipeline.OneReportPerFrame | EGoTouchService/Engine/Reporting/TouchGestureStateMachine.cpp:92-124 | With a hold that is positive and differs from the grace every frame of every run reports at most one event per id |
| Pipeline.TwoReportsNeedUp | EGoTouchService/Engine/Reporting/TouchGestureStateMachine.cpp:54-124 | Two reports for one id in a frame happen exactly when a lifted contact meets a slot that releases in that frame |
| Pipeline.ChainSpeaks | EGoTouchService/Engine/Reporting/TouchGestureStateMachine.cpp:32-124 | With one press frame and a hold no shorter than the grace, everything the chain of tracker and gesture machine reports for an id over any run is a prefix of (Down+ Move* Up)* |
| PipelineLimits.ChainLanguageIff | EGoTouchService/Engine/Reporting/TouchTracker.cpp:348-378 | The reports of every id on all runs of the chain follow that language if and only if one frame presses and the hold is no shorter than the grace |
| PipelineLimits.TapWithoutDown | EGoTouchService/Engine/Reporting/TouchGestureStateMachine.cpp:66-83 | With more press frames a tap through the chain reports something and no Down before it, for every hold and grace |
| PipelineLimits.ReturnSaysDownTwice | EGoTouchService/Engine/Reporting/TouchGestureStateMachine.cpp:280-297 | With a hold shorter than the grace a tap whose finger returns right after the lift-off is reported Down, Move, Down |
| PipelineLimits.UpsFindIdleIff | EGoTouchService/Engine/Reporting/TouchTracker.cpp:348-378 | Lifted contacts find idle slots on all runs if and only if the hold is longer than the grace |
| PipelineLimits.OneReportIff | EGoTouchService/Engine/Reporting/TouchTracker.cpp:348-378 | At most one event per id and frame on all runs if and only if the hold is positive and differs from the grace |
| PipelineLimits.BusySlot | EGoTouchService/Engine/Reporting/TouchTracker.cpp:348-378 | For every hold within the grace a tap leads to an Up that meets a busy slot |
| PipelineLimits.TapReportsTwice | EGoTouchService/Engine/Reporting/TouchGestureStateMachine.cpp:92-124 | For a hold equal to the grace a tap ends with Move and Up in one frame |
| PipelineLimits.LongPressReportsTwice | EGoTouchService/Engine/Reporting/TouchGestureStateMachine.cpp:242-250 | Without a hold a long press ends with Move and Up in one frame |
| Peaks.NoAdjacentPeaks | EGoTouchService/Engine/TouchSolver/PeakDetector.cpp:62-86 | The asymmetric test never accepts two adjacent cells |
| Peaks.RegionHasPeak | EGoTouchService/Engine/TouchSolver/PeakDetector.cpp:50-92 | With the drift test off every connected region of cells at or above any level that reaches the thresholds contains an accepted cell |
| Peaks.DetectedPeaksOk | EGoTouchService/Engine/TouchSolver/PeakDetector.cpp:105-116 | Whatever part of the accepted cells is left, the peaks are distinct, positive, as the heat map has them, exceeded by no neighbour and pairwise not adjacent |
| Peaks.EdgePassMeans | EGoTouchService/Engine/TouchSolver/PeakDetector.cpp:181-194 | A border pass removes a peak only if a peak of the same line is more than 8/5 as strong; a strongest peak stays |
| Peaks.StrongestSurvives | EGoTouchService/Engine/TouchSolver/PeakDetector.cpp:180-205 | The strongest peak survives all four border passes |
| Peaks.FilteredMeans | EGoTouchService/Engine/TouchSolver/PeakDetector.cpp:157-205 | The filters only remove peaks, and after the Z1 filter all reach the threshold |
| PeakFilters.AcceptedIsMeasured | EGoTouchService/Engine/TouchSolver/PeakDetector.cpp:94-115 | An accepted peak carries the signal of its cell and the sum over the set of cells around it |
| PeakFilters.AcceptsIff | EGoTouchService/Engine/TouchSolver/PeakDetector.cpp:50-92 | A cell is accepted if and only if it reaches the threshold of its place, no cell around it is stronger, none met before in the scan is as strong, and, with the drift filter on, its row is no palm |
| PeakFilters.EdgePassIff | EGoTouchService/Engine/TouchSolver/PeakDetector.cpp:181-195 | A border pass removes a peak if and only if it is on the line and below five eighths, in whole eighths, of some positive peak there |
| PeakFilters.DeliveredPeaks | EGoTouchService/Engine/TouchSolver/PeakDetector.cpp:157-205 | Of the strongest cells exactly those are delivered that the filters call for on the heat map: with Z8 on a thirty-second of the signal is at most the sum around, with Z1 on the threshold is reached; with the border filter on whatever is missing besides was dwarfed by such a peak of its border, and whatever one of its border away from the corners dwarfs is missing |
| PeakFilters.DriftMeans | EGoTouchService/Engine/TouchSolver/PeakDetector.cpp:125-151 | The palm test holds exactly when the signal is between three and six eighths of the limit, no step across a cell of the row exceeds a third of it, the row carries at least four and a half times the signal and changes by at most six times the signal in all, as sums over the set of inner cells of the row |
| Detector.IsLocalMax | EGoTouchService/Engine/TouchSolver/PeakDetector.cpp:62-86 | The eight tests together say: strictly above the earlier neighbours of the scan, not below the later ones |
| Detector.PeakDetector.DetectPressureDrift | EGoTouchService/Engine/TouchSolver/PeakDetector.cpp:125-151 | The palm test with its early exit: middling signal, no steep gradient in the row, large row sum, small gradient sum |
| Detector.PeakDetector.Insert | EGoTouchService/Engine/TouchSolver/PeakDetector.cpp:105-116 | Inserting keeps the twenty strongest seen so far: nothing dropped is stronger than anything kept |
| Detector.PeakDetector.DetectInRange | EGoTouchService/Engine/TouchSolver/PeakDetector.cpp:39-119 | The scan keeps the twenty strongest accepted cells, and drops none when there are fewer than twenty-one |
| Detector.PeakDetector.FilterEdgeLine | EGoTouchService/Engine/TouchSolver/PeakDetector.cpp:181-195 | One border pass, as specified |
| Detector.PeakDetector.SortPeaks | EGoTouchService/Engine/TouchSolver/PeakDetector.cpp:210-213 | Ascending order, same peaks |
| Detector.PeakDetector.Detect | EGoTouchService/Engine/TouchSolver/PeakDetector.cpp:10-28 | The peaks of a frame are the filtered twenty strongest in ascending order; the final cap never removes one; they suit the zone expander |
| ZoneFlood.FloodFill | EGoTouchService/Engine/TouchSolver/ZoneExpander.cpp:77-147 | The queue flood ends; its core is exactly the set of free cells at or above the threshold joined to the peak, its edge exactly their weaker positive neighbours, and all sums, bounds and flags are those of the marked pixels |
| ZoneFlood.Dequeue | EGoTouchService/Engine/TouchSolver/ZoneExpander.cpp:108-144 | Handling one queued pixel marks every free positive neighbour and keeps queue, marks and sums in step |
| ZoneFlood.Mark | EGoTouchService/Engine/TouchSolver/ZoneExpander.cpp:128-142 | A free neighbour becomes core and is queued, becomes edge, or is left alone |
| ZoneFlood.DoneIsFlooded | EGoTouchService/Engine/TouchSolver/ZoneExpander.cpp:108-144 | When no core pixel waits any more the flood has reached the whole component |
| ZoneFlood.SumsOverCore | EGoTouchService/Engine/TouchSolver/ZoneExpander.cpp:91-101 | Whatever the order of the flood, its sums are the weighted sums of the heat map over the core cells |
| ZoneInfo.AddPixel | EGoTouchService/Engine/TouchSolver/ZoneExpander.cpp:92-101 | A core pixel enters area, signal and weight, and the weighted sums as far as 32 bits reach: they are the wrapped sums over all core pixels |
| ZoneInfo.UpdateEdgeInfo | EGoTouchService/Engine/TouchSolver/EdgeCompensation.h:45-75 | Border sums, border maxima and bounding box take in one more pixel |
| ZoneInfo.GetEdgeTouchedFlag | EGoTouchService/Engine/TouchSolver/EdgeCompensation.h:78-88 | The border flag is set exactly when a core pixel lies on the border, the near flag exactly when one lies within two cells of it |
| ZoneInfo.BoundsAreExact | EGoTouchService/Engine/TouchSolver/EdgeCompensation.h:69-74 | The accumulated bounds are the exact bounding box: all core cells within, every bound attained |
| ZoneClose.DilateAndErode | EGoTouchService/Engine/TouchSolver/ZoneExpander.cpp:154-198 | The two passes compute the close of the zone map |
| ZoneClose.CloseNeverRelabels | EGoTouchService/Engine/TouchSolver/ZoneExpander.cpp:161-197 | A marked cell keeps its label; a filled one has at least three neighbours of its label, none more frequent, and no empty neighbour in the filled map |
| ZoneClose.WinnerIsMajority | EGoTouchService/Engine/TouchSolver/ZoneExpander.cpp:166-177 | The poll finds a label no other outnumbers |
| ZoneClose.WinnerIsFirst | EGoTouchService/Engine/TouchSolver/ZoneExpander.cpp:166-177 | Of labels equally frequent the poll finds the one that reaches that count first |
| ZoneClose.CloseExactly | EGoTouchService/Engine/TouchSolver/ZoneExpander.cpp:154-198 | The close fills an empty cell if and only if some label stands on at least three cells around it and every cell around it is in a zone or has such a label too, and then with a label no other outnumbers |
| ZoneRun.ZoneIsComponent | EGoTouchService/Engine/TouchSolver/ZoneExpander.cpp:17-31 | When the zone thresholds never fall from peak to peak and a peak below its own stands alone, the core of a flooded zone is exactly the connected component of its peak at its own threshold, or the peak's own cell when the peak is below it |
| ZoneRun.StrongCellsAreCovered | EGoTouchService/Engine/TouchSolver/ZoneExpander.cpp:17-31 | Then a cell that reaches every threshold ends in some zone exactly when a path of strong cells joins it to a peak |
| ZoneRun.PeaksShareZoneIffMeet | EGoTouchService/Engine/TouchSolver/ZoneExpander.cpp:17-31 | Then two different peaks share a zone exactly when some peak no later than both reaches both at its own threshold |
| ZoneRun.PeaksShareZoneIffLinked | EGoTouchService/Engine/TouchSolver/ZoneExpander.cpp:17-31 | With one threshold for all they share a zone exactly when a path of cells at that level joins them, whatever the order of processing; a peak below the level shares its zone with none |
| ZoneRun.EarlierPeakAbsorbs | EGoTouchService/Engine/TouchSolver/ZoneExpander.cpp:19-21 | A peak that an earlier one reaches at the earlier one's threshold floods nothing |
| ZoneRun.Labelled | EGoTouchService/Engine/TouchSolver/ZoneExpander.cpp:17-31 | Over all floods a label stands exactly on the marks of its flood, and an absorbed peak carries an earlier label |
| ZonePeaks.RosterIsPartition | EGoTouchService/Engine/TouchSolver/ZoneExpander.cpp:204-231 | The peak lists of the zones name every peak exactly once |
| ZonePeaks.OwnedStarts | EGoTouchService/Engine/TouchSolver/ZoneExpander.cpp:22-28 | A zone lists the peak it was flooded from first |
| Zones.PeaksShareThold | EGoTouchService/Engine/TouchSolver/ZoneExpander.cpp:64-70 | For every scale whose thresholds fit 16 bits the peaks that reach the detection threshold have one zone threshold |
| Zones.StrongPeaksReachThold | EGoTouchService/Engine/TouchSolver/ZoneExpander.cpp:64-70 | With a scale of at most one every peak at or above the detection threshold reaches the zone threshold |
| Zones.TholdMeans | EGoTouchService/Engine/TouchSolver/ZoneExpander.cpp:64-70 | The zone threshold is the lesser of detection threshold and peak times the scale in whole 128ths, and at least one |
| Extractor.ZonesByConnection | EGoTouchService/Engine/TouchSolver/ZoneExpander.cpp:17-31 | For all peaks as the detector delivers them, at every scale: two of them share a zone exactly when some peak no later than both reaches both at its threshold, and each core is its peak's component at its threshold, or its own cell when the peak is below |
| Extractor.ZonesAtOneThold | EGoTouchService/Engine/TouchSolver/ZoneExpander.cpp:17-31 | When all of them reach the detection threshold two different peaks share a zone exactly when connected at the zone threshold |
| ZoneLimits.WeakPeak | EGoTouchService/Engine/TouchSolver/ZoneExpander.cpp:64-70 | With a scale above one a detected peak can be below the zone threshold: its zone is its own cell, though a neighbour is above the detection threshold |
| Zones.PeaksHaveRoots | EGoTouchService/Engine/TouchSolver/ZoneExpander.cpp:204-214 | After the floods every peak is in a zone whose own peak was flooded |
| Zones.CloseKeepsLabels | EGoTouchService/Engine/TouchSolver/ZoneExpander.cpp:33-35 | The close moves no peak to another zone |
| Zones.OneContactPerPeak | EGoTouchService/Engine/TouchSolver/ZoneExpander.cpp:261-335 | Every peak has exactly one contact before the cut: the one its zone gives it |
| ZoneContacts.CentroidInBox | EGoTouchService/Engine/TouchSolver/ZoneExpander.cpp:277-293 | While its weighted sums fit 32 bits the centroid of a single-peak zone lies half a cell inside the zone's exact bounding box on both axes |
| ZoneContacts.ContactTrueIff | EGoTouchService/Engine/TouchSolver/ZoneExpander.cpp:91-101 | On a 16-bit heat map the contact of a single-peak zone is the weighted mean of its core if and only if both weighted sums fit 32 bits |
| ZoneContacts.SumsFit | EGoTouchService/Engine/TouchSolver/ZoneExpander.cpp:91-101 | While a zone's signal is at most 284359 no 32-bit accumulator overflows at any pixel |
| ZoneLimits.SumsOverflow | EGoTouchService/Engine/TouchSolver/ZoneExpander.cpp:91-101 | The bound is exact at every scale: a heat map of 16-bit signals with one detected peak, whose flood has a signal of 284360 and a column sum beyond 32 bits, so that its contact lies 58 cells left of the panel |
| ZoneLimits.OnCentresIff | EGoTouchService/Engine/TouchSolver/ZoneExpander.cpp:277-293 | All zones of a signal of at most a limit have their contact between the centres of the outermost cells if and only if the limit is at most 284359 |
| ZoneHistories.HistoryExists | EGoTouchService/Engine/TouchSolver/ZoneExpander.cpp:13-31 | Every list of peaks with positive thresholds has a flood history with its pixels, units and border sums |
| ZoneContacts.LocalCentroidNearPeak | EGoTouchService/Engine/TouchSolver/ZoneExpander.cpp:303-333 | In a shared zone the centroid of a peak stays within one cell of the centre of the peak's cell, and between the centres of the first and the last line |
| ContactMeans.SharedMeans | EGoTouchService/Engine/TouchSolver/ZoneExpander.cpp:303-333 | The centroid of a peak in a shared zone is the mean position of the positive signal over the set of cells within one row and column of the peak, cut off to 1/256, half a cell in |
| ContactMeans.EveryContactMeans | EGoTouchService/Engine/TouchSolver/ZoneExpander.cpp:261-335 | Every contact of a frame before the cut is that of one peak: alone in its zone it has the core's cell count and signal and, while the weighted sums fit 32 bits, the mean position over the core; in a shared zone it has the mean around its peak and an even share of count and signal; the zone type follows the number of peaks and the core |
| ContactMeans.BorderSumsMean | EGoTouchService/Engine/TouchSolver/EdgeCompensation.h:45-68 | A zone's border sums are the signal over the sets of its marked cells in the outermost and the next columns and rows |
| ZoneContacts.Cut | EGoTouchService/Engine/TouchSolver/ZoneExpander.cpp:38-49 | The cut sorts by signal and keeps the first ones, renumbered |
| ZoneContacts.CutKeepsStrongest | EGoTouchService/Engine/TouchSolver/ZoneExpander.cpp:38-49 | After the cut the smaller of count and limit is left, and no dropped contact is stronger than a kept one |
| Expander.ZoneExpander.Reset | EGoTouchService/Engine/TouchSolver/ZoneExpander.cpp:52-58 | The map is cleared, no units, no zones |
| Expander.ZoneExpander.FloodAll | EGoTouchService/Engine/TouchSolver/ZoneExpander.cpp:13-31 | The loop over the peaks floods exactly the peaks not yet marked and leaves units and border sums that describe their floods |
| Expander.ZoneExpander.ScanAbsorbedPeaks | EGoTouchService/Engine/TouchSolver/ZoneExpander.cpp:204-231 | Every zone ends with the list of all peaks whose cells carry its label, in order |
| Expander.ZoneExpander.ComputeCentroidsAndContacts | EGoTouchService/Engine/TouchSolver/ZoneExpander.cpp:261-335 | The contacts follow the zones' peak lists, each as wanted for its peak; the zones are classified |
| Expander.ZoneExpander.Process | EGoTouchService/Engine/TouchSolver/ZoneExpander.cpp:10-50 | A frame: component floods, close, peak lists, one contact per peak, cut to the limit |
| Extractor.Process | EGoTouchService/Engine/TouchSolver/FeatureExtractor.cpp:11-14 | Detector and expander in a row: the filtered strongest peaks suit the expander, with its floods, units and border sums; every peak gets its contact, the cut leaves min(peaks, limit); which peaks share a zone and what the cores are, for every configuration |
| EdgeComp.ECGetOffset | EGoTouchService/Engine/TouchSolver/EdgeCompensation.cpp:50-62 | The search picks the first segment wide enough, or the last; the offset is at most 255 |
| EdgeComp.FinalOffsetBetween | EGoTouchService/Engine/TouchSolver/EdgeCompensation.cpp:68-74 | The compensated distance lies between 0 and the raw one, strictly below it exactly when the blend applies, and never below the target |
| EdgeComp.FarMovesOutward | EGoTouchService/Engine/TouchSolver/EdgeCompensation.cpp:113-135 | Toward the far border the result never passes the border, falls short of the coordinate by less than 1/256, and does not fall short if and only if the coordinate is whole in 1/256 or the blend applies |
| EdgeComp.NearMovesOutward | EGoTouchService/Engine/TouchSolver/EdgeCompensation.cpp:116-137 | Toward the near border the coordinate only moves outward, never past the border |
| EdgeComp.CutMovesInward | EGoTouchService/Engine/TouchSolver/EdgeCompensation.cpp:111-134 | A far-side coordinate between two 1/256 steps outside the blend is moved inward |
| EdgeMeaning.WidthExactly | EGoTouchService/Engine/TouchSolver/EdgeCompensation.cpp:105-109 | The edge width is the outer signal in 255ths of the inner one, cut off, 255 from equality on, and zero without inner signal |
| EdgeMeaning.ShareExactly | EGoTouchService/Engine/TouchSolver/EdgeCompensation.cpp:56-61 | The offset of a segment is the position of the table entry between the segment's two entries in 256ths, cut toward the lower, negative below it and 255 from the upper on |
| EdgeMeaning.BlendExactly | EGoTouchService/Engine/TouchSolver/EdgeCompensation.cpp:68-74 | Between target and range the distance gives up, of its excess over the target, the share by which it falls short of the range, in whole 256ths; elsewhere it stays |
| EdgeMeaning.BlendAtEnds | EGoTouchService/Engine/TouchSolver/EdgeCompensation.cpp:68-74 | One step beyond the target the result is the target, one step short of the range it is one step less than the raw distance |
| EdgeMeaning.BlendRises | EGoTouchService/Engine/TouchSolver/EdgeCompensation.cpp:68-74 | For one target the compensated distance grows with the raw one |
| EdgeMeaning.DimExactly | EGoTouchService/Engine/TouchSolver/EdgeCompensation.cpp:94-138 | A dimension whose zone reaches the grid border is placed at the blend of its distance from the border and the target, for the width, segment and share that the border sums and the distance give |
| EdgeComp.CentroidsAreWhole | EGoTouchService/Engine/TouchSolver/ZoneExpander.cpp:279-284 | Zone centroids are whole in 1/256 |
| EdgeComp.EdgeCompensator.ProcessDim | EGoTouchService/Engine/TouchSolver/EdgeCompensation.cpp:94-138 | One dimension of a contact, with the exact target of the chosen segment; untouched when the zone reaches neither border; outward and never past the border when it does |
| EdgeComp.EdgeCompensator.Process | EGoTouchService/Engine/TouchSolver/EdgeCompensation.cpp:76-92 | Each contact is compensated in both dimensions with the border sums at its own index, if they touch the border, and left alone otherwise |
| EdgeComp.ContactStaysOnPanel | EGoTouchService/Engine/TouchSolver/EdgeCompensation.cpp:76-138 | Whatever border sums it meets, a contact on the panel and whole in 1/256 stays both, and moves only outward |
| FrontEnd.ContactsOnCentres | EGoTouchService/Engine/TouchSolver/ZoneExpander.cpp:261-335 | Every contact of a frame, before and after the cut, is whole in 1/256 and within sixty cells of the origin; it lies in [0.5, 59.5] by [0.5, 39.5] while the weighted sums of all single-peak zones fit 32 bits |
| FrontEnd.QuietMapFits | EGoTouchService/Engine/TouchSolver/ZoneExpander.cpp:91-101 | They all fit on a heat map whose positive signal is at most 284359 in all |
| FrontEnd.OwnBorderSumsIff | EGoTouchService/Engine/TouchSolver/FeatureExtractor.cpp:16-18 | In frames without a cut all contacts are paired with the border sums of their own zones if and only if no peak was absorbed |
| FrontEnd.OwnAfterCutIff | EGoTouchService/Engine/TouchSolver/FeatureExtractor.cpp:14-18 | After a cut to m contacts all of them are, however the sort orders equals, if and only if zone by zone the first m zones have a contact stronger than those of all later zones, and no other contact, but for the last; the cuts are exactly those the sort orders lead to |
| Pairing.AlwaysRightIff | EGoTouchService/Engine/TouchSolver/ZoneExpander.cpp:38-49 | Every descending sort puts an entry of zone k at each index k below m if and only if the zones are ranked that way |
| FrontEnd.AbsorbedHasNone | EGoTouchService/Engine/TouchSolver/EdgeCompensation.cpp:80-87 | At the index of an absorbed peak there are no border sums, so the contact there is not compensated |
| ZoneLimits.BorderPair | EGoTouchService/Engine/TouchSolver/EdgeCompensation.cpp:80-87 | Two detected peaks of one zone on the first row: the contact of the second meets no border sums although its zone touches the border |
| FrontEnd.Process | EGoTouchService/Engine/TouchSolver/FeatureExtractor.cpp:11-18 | Detector, expander and edge compensation in a row: the detected peaks, their contacts, each compensated with the border sums at its index; while the weighted sums fit 32 bits every contact ends on the panel, whole in 1/256, and none is moved inward |
| FrontEnd.Frame | EGoTouchService/Engine/Reporting/TouchTracker.cpp:167-414 | With the tracker behind them: the compensated contacts of any heat map, overflow or not, suit the tracker by themselves; it takes its step on exactly these and reports distinct ids |
| Afe.AfeController.ProcessStylusStatus | EGoTouchService/Device/himax/HimaxAfe.cpp:221-338 | A status frame changes the state and requests a switch exactly as specified, from the words at their offsets in the buffer |
| Afe.ReadU16 | EGoTouchService/Device/himax/HimaxAfe.cpp:237-240 | Little-endian words |
| Afe.WordArithmetic | EGoTouchService/Device/himax/HimaxAfe.cpp:224-291 | Counter steps and ages are those of 32-bit arithmetic |
| Afe.AfeController.CheckMismatch | EGoTouchService/Device/himax/HimaxAfe.cpp:296-318 | The debounced mismatch of pen and panel frequency |
| Afe.AfeController.UpdateBtHeartbeat | EGoTouchService/Device/himax/HimaxAfe.cpp:340-355 | A heartbeat refreshes frequencies and time stamp; an empty one, or one without a pen, changes nothing |
| Afe.AfeController.InitStylus | EGoTouchService/Device/himax/HimaxAfe.cpp:161-177 | Connecting resets frequency and request, not the counters; failures change nothing |
| Afe.AfeController.SetStylusId | EGoTouchService/Device/himax/HimaxAfe.cpp:179-199 | The pen gets its frequency pair from the table, unknown pens that of pen 5 |
| Afe.AfeController.DisconnectStylus | EGoTouchService/Device/himax/HimaxAfe.cpp:201-217 | Disconnecting resets the state |
| Afe.AfeController.ClearStatus | EGoTouchService/Device/himax/HimaxAfe.cpp:129-141 | Bit 0x40 clears the pending request, nothing else |
| AfeLife.ApplyKeepsState | EGoTouchService/Device/himax/HimaxAfe.cpp:221-338 | Every operation keeps the indices in {0, 1} and a pending request at most 360 frames old |
| AfeLife.RunKeepsState | EGoTouchService/Device/himax/HimaxAfe.cpp:221-338 | So does every run of operations |
| AfeLife.FrequencyChangesOnlyWhenConfirmed | EGoTouchService/Device/himax/HimaxAfe.cpp:269-277 | In an undisturbed session the frequency index changes only on a confirmation of a pending switch, and to its target |
| AfeLife.RequestsApart | EGoTouchService/Device/himax/HimaxAfe.cpp:290-336 | In an undisturbed session two requests are at least 121 status frames apart, unless the counter wraps between them and within 120 counts of the first |
| AfeLife.ShortSessionApart | EGoTouchService/Device/himax/HimaxAfe.cpp:290-336 | In an undisturbed session with fewer frames than the counter has left before its wrap all requests are at least 121 frames apart |
| AfeLife.SessionsApartIff | EGoTouchService/Device/himax/HimaxAfe.cpp:290-336 | From power-up all undisturbed sessions of at most n status frames keep their requests 121 frames apart if and only if n is less than 2^32 |
| AfeLife.ReachRequest | EGoTouchService/Device/himax/HimaxAfe.cpp:319-336 | Quiet frames and a noisy one lead from power-up to a request on any count of the counter |
| AfeLife.RequestsTogether | EGoTouchService/Device/himax/HimaxAfe.cpp:291-294 | From power-up an undisturbed session reaches a request on the last count before the wrap and the next one frame later |
| AfeLife.ApartUnlessWrap | EGoTouchService/Device/himax/HimaxAfe.cpp:290-336 | In an undisturbed session two requests are at least 121 status frames apart, or the counter wraps between them |
| AfeLife.RequestRate | EGoTouchService/Device/himax/HimaxAfe.cpp:290-336 | In any undisturbed session a window of k status frames holds at most k / 121 requests, rounded up, and one more for every wrap of the counter in it |
| AfeLife.ShortSessionRate | EGoTouchService/Device/himax/HimaxAfe.cpp:290-336 | So in a session that ends before the counter can wrap it holds at most k / 121, rounded up |
| AfeLife.SpacedIffFarFromWrap | EGoTouchService/Device/himax/HimaxAfe.cpp:291-294 | After a request the distance to the next is guaranteed if and only if the counter stays clear of its wrap for 120 frames |
| AfeLife.WrapRun | EGoTouchService/Device/himax/HimaxAfe.cpp:291-294 | A switch confirmed on count zero has no cooldown: a run to the next request within 120 frames |
| AfeLife.ClearEndsSpacing | EGoTouchService/Device/himax/HimaxAfe.cpp:133-136 | Clearing the pending request lets the next request follow one frame later |
| AfeChoice.RequestIff | EGoTouchService/Device/himax/HimaxAfe.cpp:269-337 | A frame requests a switch if and only if nothing keeps it waiting and a frequency difference is overdue (pen heard of within 7200 frames, both frequencies known and different, on record for more than 4 frames) or the frequency in use is noisier by more than 5000; the target is 1 exactly when the pen is on freq1 for a difference, and the quieter frequency, not the one in use, otherwise |
| AfeChoice.FrameFields | EGoTouchService/Device/himax/HimaxAfe.cpp:224-288 | Counter, pressure after 120 silent frames, pen gone after 7200, frequency and switch time after a finished switch or one given up after 360 frames, all read off the fields |
| AfeChoice.RecordFields | EGoTouchService/Device/himax/HimaxAfe.cpp:296-318 | A frame that does not wait puts a difference on record unless it is there, and equal frequencies take it off; a finished switch takes it off in any case |
| AfeChoice.RecordBegan | EGoTouchService/Device/himax/HimaxAfe.cpp:296-318 | Over runs, a difference on record was seen by the frame it is dated to, and no frame since that did not wait saw the frequencies agree |
| AfeChoice.DoneSwitches | EGoTouchService/Device/himax/HimaxAfe.cpp:269-277 | Over runs, a request reported done while open puts the panel on the frequency requested |
| AfeChoice.PenIsFollowed | EGoTouchService/Device/himax/HimaxAfe.cpp:269-313 | Over runs, after a request that noise does not explain is reported done the panel is on index 1 exactly when the pen was on freq1, and so on the pen's frequency whenever that is one of its pair |
| AfeChoice.HeardLast | EGoTouchService/Device/himax/HimaxAfe.cpp:340-355 | Over runs, the pen's frequencies and time stamp are those of its last heartbeat |
| AfeChoice.StatusBytes | EGoTouchService/Device/himax/HimaxAfe.cpp:226-246 | The four status words are little-endian pairs at bytes 4835, 4839, 4811 and 4823 of the frame |
| AfeChoice.PairsOfPens | EGoTouchService/Device/himax/HimaxAfe.cpp:29-35 | Pens 0 to 3 have the pairs from (0xA1, 0x18) on, every other pen has the first |
| StylusPeak.FloodFill | EGoTouchService/Engine/StylusSolver/GridPeakDetector.cpp:21-49 | The stack flood ends and lists every cell of the seed's four-connected component above the noise exactly once |
| StylusPeak.Visit | EGoTouchService/Engine/StylusSolver/GridPeakDetector.cpp:38-46 | A neighbour off the grid, visited or weak is skipped, any other is marked and stacked |
| StylusPeak.FilledIsComponent | EGoTouchService/Engine/StylusSolver/GridPeakDetector.cpp:31-47 | Once all surroundings are settled the marks are the least closed set around the seed |
| StylusPeak.TestPeak | EGoTouchService/Engine/StylusSolver/GridPeakDetector.cpp:7-18 | Above the noise and not exceeded by any of the four neighbours |
| StylusPeak.FindPeak | EGoTouchService/Engine/StylusSolver/GridPeakDetector.cpp:76-103 | Every component is flooded exactly once, from its first local maximum, and the answer is the first of greatest positive window sum among components below the limit; nothing if there is none |
| StylusGrid.EveryComponentLeads | EGoTouchService/Engine/StylusSolver/GridPeakDetector.cpp:82-87 | Every component has exactly one first local maximum |
| StylusGrid.SameComponent | EGoTouchService/Engine/StylusSolver/GridPeakDetector.cpp:21-49 | Being in a component is mutual: its cells all have the same component |
| StylusPeak.FindLinePeak | EGoTouchService/Engine/StylusSolver/GridPeakDetector.cpp:67-73 | The first greatest entry, or -1 exactly when none is positive |
| StylusPeak.ProjectTo1D | EGoTouchService/Engine/StylusSolver/GridPeakDetector.cpp:106-139 | Both projections are the sums within the radius of the peak, with their line peaks |
| PenMeaning.SquareSum | EGoTouchService/Engine/StylusSolver/GridPeakDetector.cpp:52-64 | The peak sum is that over the set of cells within one row and column |
| PenMeaning.ProjectionMeans | EGoTouchService/Engine/StylusSolver/GridPeakDetector.cpp:106-139 | Each projection entry is the signal over the set of cells of its column, or row, within the radius of the peak |
| Coordinate.TriangleInCell | EGoTouchService/Engine/StylusSolver/CoordinateSolver.cpp:9-31 | With no neighbour above the peak the offset lies within the cell |
| Coordinate.EdgeInCell | EGoTouchService/Engine/StylusSolver/CoordinateSolver.cpp:36-64 | At the border as well: the stand-in neighbour stays below the peak even where the 16-bit conversion wraps |
| PenMeaning.TriangleMeans | EGoTouchService/Engine/StylusSolver/CoordinateSolver.cpp:9-31 | The offset moves from the middle of the cell toward the greater neighbour by half the ratio of what that neighbour and the peak exceed the lesser one by |
| PenMeaning.StandInMeans | EGoTouchService/Engine/StylusSolver/CoordinateSolver.cpp:36-54 | For a falling border signal the stand-in neighbour is the greater of the drop over the parameter and the peak less the next drop times it, in tenths, kept below the peak |
| PenMeaning.BorderPosition | EGoTouchService/Engine/StylusSolver/CoordinateSolver.cpp:67-94 | At either end of the line the position is that of the peak between stand-in and neighbour, counted from that end, or the end itself when peak and two neighbours are below two fifths of the parameter for that end |
| Coordinate.SolvedInPeakCell | EGoTouchService/Engine/StylusSolver/CoordinateSolver.cpp:67-94 | At the line peak k the result lies in [k*1024, (k+1)*1024], at both borders too |
| Coordinate.TriangleMirrors | EGoTouchService/Engine/StylusSolver/CoordinateSolver.cpp:9-31 | Exchanging the neighbours mirrors the offset if and only if not all three values are equal |
| Coordinate.MirrorsIff | EGoTouchService/Engine/StylusSolver/CoordinateSolver.cpp:67-94 | For every signal with a peak and equal border parameters, first maximum k and last maximum l: reversing the signal maps c to 9*1024 - c if and only if k and l are one cell (which the conversion to 16 bits does not level with both its neighbours) or two adjacent cells, a pair at a border being strong enough for its stand-in neighbour |
| Coordinate.SolveMirrors | EGoTouchService/Engine/StylusSolver/CoordinateSolver.cpp:67-94 | So with a unique peak and 16-bit signals reversing the signal always mirrors the coordinate |
| Coordinate.PeaksApartBreakMirror | EGoTouchService/Engine/StylusSolver/CoordinateSolver.cpp:67-94 | And whenever the first and the last maximum are not neighbours the mirror fails |
| Coordinate.SolveByGravity | EGoTouchService/Engine/StylusSolver/CoordinateSolver.cpp:97-110 | The weighted mean of the positive entries, or the sentinel exactly when there is none |
| Coordinate.GravityInHull | EGoTouchService/Engine/StylusSolver/CoordinateSolver.cpp:97-110 | The mean lies between the first and the last positive entry |
| PenMeaning.GravityMeans | EGoTouchService/Engine/StylusSolver/CoordinateSolver.cpp:97-110 | It is the mean index over the set of positive entries in 1/1024, cut off |
| Coordinate.CoordinateSolver.Solve | EGoTouchService/Engine/StylusSolver/CoordinateSolver.cpp:113-140 | Valid exactly when both dimensions have a peak; the final clamp changes the triangle result by at most one unit, and only at the very end of the grid |
| PostFilter.CoefInUnit | EGoTouchService/Engine/StylusSolver/CoorPostProcessor.cpp:38-44 | The smoothing coefficient lies in [0, 1] whatever the speed |
| PostFilter.StepStaysInside | EGoTouchService/Engine/StylusSolver/CoorPostProcessor.cpp:88-134 | A box that holds everything the chain remembers and the sample holds the output and the new memory |
| PostFilter.OutputInHull | EGoTouchService/Engine/StylusSolver/CoorPostProcessor.cpp:88-134 | Over any run each output lies, per axis, between the least and greatest raw value since the last reset |
| PostFilter.OutputNearSmoothed | EGoTouchService/Engine/StylusSolver/CoorPostProcessor.cpp:70-85 | The output is within the jitter threshold of the smoothed value |
| PenMeaning.CoefMeans | EGoTouchService/Engine/StylusSolver/CoorPostProcessor.cpp:38-44 | The coefficient is the low one up to the low speed, the high one from the high speed on, and on the line between them otherwise |
| PenMeaning.StepExactly | EGoTouchService/Engine/StylusSolver/CoorPostProcessor.cpp:88-134 | A valid sample is averaged with the last two outputs once there are two, moves the smoothed position toward itself by the coefficient, and its rounded result replaces the locked position exactly when it is not within the jitter threshold of it |
| PenMeaning.SpeedReference | EGoTouchService/Engine/StylusSolver/CoorPostProcessor.cpp:21-35 | Over runs, the speed of a sample is the distance of its average from the raw sample 23 samples before, and zero while there is none since the last reset |
| PenMeaning.OutputHolds | EGoTouchService/Engine/StylusSolver/CoorPostProcessor.cpp:70-85 | Over runs, an output stays as long as every smoothed position is within the jitter threshold of it |
| PostFilter.CoorPostProcessor.ApplyIIR | EGoTouchService/Engine/StylusSolver/CoorPostProcessor.cpp:47-57 | The blend of the stored and the new position, rounded |
| PostFilter.CoorPostProcessor.Apply3PointAvg | EGoTouchService/Engine/StylusSolver/CoorPostProcessor.cpp:60-67 | The mean of the sample and the last two outputs once both are there |
| PostFilter.CoorPostProcessor.ApplyJitterLock | EGoTouchService/Engine/StylusSolver/CoorPostProcessor.cpp:70-85 | The locked position holds until a sample leaves its neighbourhood |
| PostFilter.CoorPostProcessor.Process | EGoTouchService/Engine/StylusSolver/CoorPostProcessor.cpp:88-134 | One sample through all stages as specified; an invalid one resets the chain |
| StylusChain.FindPen | EGoTouchService/Engine/StylusSolver/StylusPipeline.cpp:135-162 | Peak, projection and interpolation in a row: the position is that of the strongest peak's projections, and on the grid |
| StylusChain.LocatePen | EGoTouchService/Engine/StylusSolver/StylusPipeline.cpp:135-176 | With the filter behind them: a found position takes the filter one step, anything else leaves it alone, and over any frames every reported position stays on the 9 by 9 grid |

## Left out

- Assignment.SolveAssignment: costs are required to stay below a quarter of the program's infinity bound, and float rounding is not modelled; the tracker's own costs meet the bound by far.
- Tracker.TouchTracker.Process: coordinates and the prediction scale are required to be below one million, which keeps costs below the solver's bound and which the contacts of the front end meet (`FrontEnd.Frame`); hold counts are required to be non-negative, as the configuration range has them; the switch that disables the stage is left out.
- Tracker.TouchTracker.Gate: size estimates are functions of area and signal with the roots as parameters.
- Pipeline.OneReportPerFrame: the coordinate filter between tracker and gesture machine is any stage that moves contacts and leaves their ids and states alone; its arithmetic is not modelled.
- Gesture.TouchGestureStateMachine.Process: the switch that disables the stage and the configuration text are left out; configurations are those the loader admits.
- Detector.PeakDetector.Detect: the persistent peak ids, which the tracker overwrites, are not modelled.
- Detector.PeakDetector.SortPeaks: the order of equal peaks is left open in the specification; the stable sort of `Sorting` stands in for the library's.
- ZoneContacts.Cut: likewise, the order of equally strong contacts is left open.
- Expander.ZoneExpander.Process: the threshold scale is any byte, with a shift of seven; only thresholds whose product with the scale does not fit 16 bits are excluded; the edge map, read by the diagnostics only, is not modelled; peaks are at most twenty, distinct and positive, as the detector delivers them.
- Extractor.Process: likewise, thresholds whose product with the scale does not fit 16 bits are excluded.
- ZoneFlood.FloodFill: overflow of the weighted sums is taken as wrap-around; areas, signals and border sums are unbounded, as 2400 signals of 16 bits fit 32 bits.
- EdgeComp.EdgeCompensator.ProcessDim: borders are non-negative and whole in 1/256, as the sensor limits are; touch sizes and edge rejection, which leave ids and positions alone, are not modelled.
- Afe.AfeController.ProcessStylusStatus: the buffer has its fixed 6000 bytes, so the size check of the program never fires; log output is left out.
- Afe.AfeController.InitStylus: bus commands are a parameter that tells whether the command went through; so is the connection of the chip in all operations.
- PostFilter.CoorPostProcessor.Process: the smoothing coefficients lie in [0, 1], as the program's constants do; float rounding is not modelled.
- StylusChain.LocatePen: parsing of the slave frame, noise rejection, calibration, anchors, tilt and pressure are not modelled.
- Per-pixel preprocessing (baseline, common-mode filter, smoothing): simple loops.
- `SharedFrameBuffer`, `DeviceRuntime`, `SystemStateMonitor`: what they guarantee depends on thread scheduling.
- Device buses, service control, drivers, user interface, configuration text and logging: no algorithm of their own.
