# xenon-ext: state machines, routes, feature flags

A Dafny model of four parts of xenon-ext, with proofs of what they promise.

**State machines** (`Registrations`, `StateTable`, `PatchSemantics`, `StateMachines`, `FsmRuns` and
the files built on it). A configuration is a nested mutable table, state to trigger to guarded
behaviours, with action lists and an expiry map for each state. The classes that build it are proved
to represent the flat log of everything registered, `MachineBuilder` runs whole configuration programs
on them, and every method that reads the table is proved against functions of that log. `FsmRuns` is a
transition system over one document: client patches, the self-patch and expiry patches arrive in any
order, and a timer becomes due, is answered by its GET and sends its patch in three separate steps.
`Refinement` ties the service's request handler to the steps of these runs, and `PatchMeaning` reads what
a patch does off the log entry by entry. Main results: `Build`, `OutcomeOfFiring`, `TraceOfPatch`,
`CompetingTriggers`, `TimerSafety`, `TimersAreConserved`, `NoTimerFiresTwice`, `ClosedNeverStuck`,
`ActionTrace`, `ExpiryFieldsRemember`, `HistorySoundness`, and, through the paths of a configuration
(`Reachability`), `StaleTimerIff` and `StrayActionsIff`.

**Routes** (`UriPaths`, `Templates`, `ProxyHandler`, `SubstitutionOrder`, `RequestRouter`,
`PathRoundTrip`, `RouteMatching`). The client prints a path by substituting parameters into a template
one at a time; the server splits, matches and reads the parameters back by position. Main results:
`OneAtATimeIsAtOnce`, `ArgumentReachesPathIff`, `IndexAlignment`, `RoundTrip`, `DynamicAcceptsIff`,
`RouteOverlap`.

**Feature flags** (`Features`, `FeatureRuns`). The store of features and the cache that follows it
through notifications. Main results: `CacheAgreement`, `AnswerIsForThePair`, `BatchIsWindow`, `SameIdIff`.

**Completion and errors** (`Completion`, `HttpErrors`). When a routed request is answered, and what
survives turning a chain of exceptions into a response and back.

## Assumptions

- Guards are predicates named by number; an environment says what each answers for a trigger, and it
  does not change while one patch is handled. Actions are named by number too, do not throw, and leave
  the state machine's own fields alone, as the document class asks of subclasses.
- Patches to one document run one at a time. All document writes of one patch are stored together, as
  one new version, when its request completes; a failed request or an exception stores nothing. Some
  handler of every accepted patch completes its request, as the service asks of its subclasses, so an
  accepted patch is always stored. One more patch is stored than those accepted: that towards an
  unconfigured destination, if an exit action had completed the request before entering it throws. An
  event says whether that happened (`early`).
- A timer is identified by the version its transition commits as and by its trigger. The clock is the
  host's and does not run backwards. A GET that cannot be read as a document loses its timer; one that
  fails but can still be read does not, because the code does not look at the failure.
- A document changes by patches to the service's own handler only. Direct replacements and deletions of
  the document are outside the runs.
- `assert` statements of the original are off, as Java runs them by default. Strings are not null where
  the original would throw on them at once; the null cases it handles are options.
- `split("/")` and `replaceAll` are modelled as Java defines them, including `$` and backslash in the
  replacement. `normalizeUriPath` and `buildUriPath` of the host framework are one leading slash,
  without one trailing slash, and the concatenation of two such paths; their source is not part of this model.
- A template is well formed if it has segments, each a literal without slashes and braces or exactly
  `{name}`. A value is plain if it is not empty, `.` or `..`, and has no slash, brace, question mark,
  dollar sign or backslash.
- The notifications of a cache report consecutive stretches of the store's commits in order, and each
  document at most once per notification, as its last commit in the stretch left it. The first may
  report documents stored before the cache started. A post to a taken identifier is refused.

## Where the code differs from what one might expect

- An expiry is tied to a state, not to a visit of it. `StaleTimerIff`: for documents posted in a given
  state, an expiry can end a visit other than the one that scheduled it if and only if it can fire at all
  and its state can be reached and lies on a cycle of the configuration, however long.
  `StaleTimerEndsALaterVisit` gives the run, in which the later visit has lasted no time;
  `EndsItsOwnVisitIff` tells the two apart within a run, by a comparison of versions that the code does
  not make.
- A patch can run actions without being stored: towards an unconfigured destination the exit actions run
  before the exception (`StrayPatchActs`). `CommittedTraceIff`: the actions of a run are those of its
  stored patches if and only if no patch of it strays in this way. `StrayActionsIff`: documents posted in
  a state are exposed to this if and only if the configuration reaches, from that state, a behaviour
  towards an unconfigured one. Closed configurations never do (`ClosedActionTrace`).
- The client substitutes one parameter after the other with `replaceAll`. An argument with `$` or a
  backslash is taken for a pattern replacement (`ArgumentReachesPathIff`), and an argument that contains
  the pattern of a later parameter is substituted again: `{a}/{b}` with `{b}` for a and `x` for b gives
  `x/x` (`ArgumentIsSubstitutedAgain`). `OneAtATimeIsAtOnce` is the exact condition for arguments of any
  text: every argument gets into its place and changes nothing else if and only if the first argument for
  each parameter of the template has neither `$` nor a backslash, and an argument whose parameter is
  mentioned by an earlier one writes back that parameter itself.
- `UndeclaredIsNeverNull`: a path parameter that the method's own path does not name is not null, because
  its missing index counts as -1. It gets the last token of the service link or, when the method's path
  starts with a slash, the one before it, which below a link of one segment is the empty token in front.
- `Serve` lists the requests that are never answered although their future is resolved.
- `SameIdIff`: features of groups with colons can share an identifier.

## Model

| member | source | states |
|---|---|---|
| Registrations.FindCountsTheLog | xenon-fsm/src/main/java/com/tteky/xenonext/fsm/core/StateRepresentation.java:41-59 | A lookup gives no handler, the one handler, or the ambiguity error exactly as the number of log entries for (state, trigger) with a met guard is zero, one or more, and the handler is that entry’s behaviour |
| Registrations.OrderIsIrrelevant | xenon-fsm/src/main/java/com/tteky/xenonext/fsm/core/StateRepresentation.java:41-59 | Two logs that are permutations of each other find the same handlers, under every environment of the guards |
| Registrations.HandlerWasPermitted | xenon-fsm/src/main/java/com/tteky/xenonext/fsm/core/StateRepresentation.java:41-59 | A handler that is found was registered for that state and trigger and its guard is met |
| Registrations.LastDelayWins | xenon-fsm/src/main/java/com/tteky/xenonext/fsm/core/StateRepresentation.java:72-75 | The expiry map has a trigger exactly when one was registered for the state, with the delay registered last |
| Registrations.EdgesByCell | xenon-fsm/src/main/java/com/tteky/xenonext/fsm/core/StateMachineConfig.java:74-83 | An edge is registered as often as its one (state, trigger) cell of the table holds it |
| Documents.NewTimersCount | xenon-fsm/src/main/java/com/tteky/xenonext/fsm/ExpiryScheduler.java:38-57 | An expiry map schedules exactly one timer for each of its triggers |
| ExpiryScheduling.ExpiryScheduler.Accept | xenon-fsm/src/main/java/com/tteky/xenonext/fsm/ExpiryScheduler.java:32-57 | The loop records the state and the map in the document, schedules one timer per trigger at now plus its delay, and touches nothing else |
| StateTable.StateRepresentation.TryFindHandler | xenon-fsm/src/main/java/com/tteky/xenonext/fsm/core/StateRepresentation.java:41-59 | The loop over the cell computes the lookup that the log defines |
| StateTable.StateRepresentation.GetPermittedTriggers | xenon-fsm/src/main/java/com/tteky/xenonext/fsm/core/StateRepresentation.java:137-149 | The nested loops with their early exit collect exactly the triggers with a met behaviour |
| StateTable.StateRepresentation.AddTriggerBehaviour | xenon-fsm/src/main/java/com/tteky/xenonext/fsm/core/StateRepresentation.java:122-130 | Growing the cell in place keeps the tables equal to the log with the behaviour appended |
| StateTable.StateRepresentation.AddEntryAction | xenon-fsm/src/main/java/com/tteky/xenonext/fsm/core/StateRepresentation.java:61-80 | Keeps the tables equal to the log with the entry action appended |
| StateTable.StateRepresentation.AddExitAction | xenon-fsm/src/main/java/com/tteky/xenonext/fsm/core/StateRepresentation.java:82-85 | Keeps the tables equal to the log with the exit action appended |
| StateTable.StateRepresentation.AddExpiryAction | xenon-fsm/src/main/java/com/tteky/xenonext/fsm/core/StateRepresentation.java:72-75 | Keeps the tables equal to the log with the expiry appended, the newer delay replacing an older one |
| StateTable.StateRepresentation.Enter | xenon-fsm/src/main/java/com/tteky/xenonext/fsm/core/StateRepresentation.java:87-113 | Runs exactly the entry actions that are unconditional or keyed to the fired trigger, in registration order |
| StateTable.StateRepresentation.Exit | xenon-fsm/src/main/java/com/tteky/xenonext/fsm/core/StateRepresentation.java:103-120 | Runs every exit action of the state, one effect for each, in registration order |
| StateTable.StateRepresentation.Expiry | xenon-fsm/src/main/java/com/tteky/xenonext/fsm/core/StateRepresentation.java:92-101 | Calls the scheduler once, with the last delays, if the state has expiries and there is a scheduler; otherwise changes nothing |
| StateTable.StateRepresentation.Cell | xenon-fsm/src/main/java/com/tteky/xenonext/fsm/core/StateMachineConfig.java:77-82 | The innermost loop draws each edge of the cell as often as the log registers it |
| StateTable.StateRepresentation.DotEdges | xenon-fsm/src/main/java/com/tteky/xenonext/fsm/core/StateMachineConfig.java:75-83 | The two inner loops draw each edge out of the state as often as the log registers it |
| StateTable.StateMachineConfig.GetRepresentation | xenon-fsm/src/main/java/com/tteky/xenonext/fsm/core/StateMachineConfig.java:38-40 | Null exactly for states that were never configured; otherwise the tables of that state |
| StateTable.StateMachineConfig.GetOrCreateRepresentation | xenon-fsm/src/main/java/com/tteky/xenonext/fsm/core/StateMachineConfig.java:48-50 | Returns the existing representation or a fresh empty one, and keeps the whole table equal to the log |
| StateTable.StateMachineConfig.Configure | xenon-fsm/src/main/java/com/tteky/xenonext/fsm/core/StateMachineConfig.java:60-62 | Hands out a configuration attached to the table of that state, a newly created one if the state is new |
| StateTable.StateMachineConfig.GenerateDotFile | xenon-fsm/src/main/java/com/tteky/xenonext/fsm/core/StateMachineConfig.java:72-86 | Whatever the order of the maps, the drawn edges are those of the log as a multiset, each registration once |
| StateTable.StateConfiguration.Permit | xenon-fsm/src/main/java/com/tteky/xenonext/fsm/core/StateConfiguration.java:28-31 | Refuses a destination equal to the state and registers nothing then; otherwise appends an unguarded behaviour to the log |
| StateTable.StateConfiguration.PermitIf | xenon-fsm/src/main/java/com/tteky/xenonext/fsm/core/StateConfiguration.java:41-44 | As permit, with the given guard |
| StateTable.StateConfiguration.PermitReentry | xenon-fsm/src/main/java/com/tteky/xenonext/fsm/core/StateConfiguration.java:56-58 | Appends an unguarded behaviour back to the state itself |
| StateTable.StateConfiguration.PermitReentryIf | xenon-fsm/src/main/java/com/tteky/xenonext/fsm/core/StateConfiguration.java:71-73 | Appends a guarded behaviour back to the state itself |
| StateTable.StateConfiguration.PublicPermitIf | xenon-fsm/src/main/java/com/tteky/xenonext/fsm/core/StateConfiguration.java:137-141 | Appends the behaviour to the log and keeps every state’s tables equal to it |
| StateTable.StateConfiguration.OnEntry | xenon-fsm/src/main/java/com/tteky/xenonext/fsm/core/StateConfiguration.java:82-86 | Appends an unconditional entry action |
| StateTable.StateConfiguration.OnEntryFrom | xenon-fsm/src/main/java/com/tteky/xenonext/fsm/core/StateConfiguration.java:95-99 | Appends an entry action keyed to a trigger |
| StateTable.StateConfiguration.OnExpiry | xenon-fsm/src/main/java/com/tteky/xenonext/fsm/core/StateConfiguration.java:108-112 | Appends an expiry |
| StateTable.StateConfiguration.OnExit | xenon-fsm/src/main/java/com/tteky/xenonext/fsm/core/StateConfiguration.java:121-125 | Appends an exit action |
| MachineBuilder.Apply | xenon-fsm/src/main/java/com/tteky/xenonext/fsm/core/StateConfiguration.java:28-141 | Every fluent call appends to the log exactly what it registers, and nothing when a permit towards the state itself is refused |
| MachineBuilder.Build | xenon-fsm/src/main/java/com/tteky/xenonext/fsm/core/StateMachineConfig.java:48-62 | Any program of requests and fluent calls, on configurations used in any order and any number of times, builds a table that holds exactly the flat log of the program |
| MachineBuilder.LogGrows | xenon-fsm/src/main/java/com/tteky/xenonext/fsm/core/StateMachineConfig.java:48-62 | One more request registers its state, and one more call registers for the state whose configuration it is made on |
| MachineBuilder.HandlesAt | xenon-fsm/src/main/java/com/tteky/xenonext/fsm/core/StateMachineConfig.java:60-62 | The configurations handed out are those requested, in their order |
| StateMachines.StateMachine.ValidateTrigger | xenon-fsm/src/main/java/com/tteky/xenonext/fsm/core/StateMachine.java:37-46 | Succeeds exactly when the trigger would be carried out; fails the request exactly when the state has no met behaviour for it; missing states and ambiguity end otherwise |
| StateMachines.StateMachine.Transit | xenon-fsm/src/main/java/com/tteky/xenonext/fsm/core/StateMachine.java:86-97 | There is a transition exactly when the lookup gives a handler, so never null after a successful validation, and it leads to the handler’s destination |
| StateMachines.StateMachine.FireTrigger | xenon-fsm/src/main/java/com/tteky/xenonext/fsm/core/StateMachine.java:68-79 | Outcome, document, timers, actions and request are those the log defines; a refused trigger changes only the request |
| StateMachines.StateMachine.Perform | xenon-fsm/src/main/java/com/tteky/xenonext/fsm/core/StateMachine.java:70-75 | Persists, exits, schedules, enters, in this order; an unconfigured destination stops it after the exit actions |
| StateMachines.StateMachine.Leave | xenon-fsm/src/main/java/com/tteky/xenonext/fsm/core/StateMachine.java:109-111 | Persisting is followed by the source’s exit actions |
| StateMachines.StateMachine.ArriveAt | xenon-fsm/src/main/java/com/tteky/xenonext/fsm/core/StateMachine.java:102-118 | Scheduling the destination’s expiries precedes its entry actions |
| StateMachines.StatePopulator | xenon-fsm/src/main/java/com/tteky/xenonext/fsm/FSMService.java:129-138 | Writes destination and trigger into the document and the request body |
| StateMachines.FsmService.HandleStart | xenon-fsm/src/main/java/com/tteky/xenonext/fsm/FSMService.java:70-91 | A valid post is completed, starts in its own state or the initial one, and sends the self-patch exactly when it starts in the initial state and there is an initial trigger; an invalid one fails unless the validation already chose a status |
| StateMachines.FsmService.HandlePatch | xenon-fsm/src/main/java/com/tteky/xenonext/fsm/FSMService.java:105-122 | A compare-and-swap on the state: no trigger and a stale state fail with 400 and change nothing; otherwise the trigger fires, with the whole new state of document, timers, actions and request |
| StateMachines.FsmService.Fire | xenon-fsm/src/main/java/com/tteky/xenonext/fsm/FSMService.java:119-120 | Fires with a scheduler for this document, whatever scheduler was set before |
| PatchSemantics.EntryActionRuns | xenon-fsm/src/main/java/com/tteky/xenonext/fsm/core/StateRepresentation.java:61-80 | An entry action runs exactly when it was registered for the destination unconditionally or for the fired trigger |
| PatchSemantics.WritesAlongAnEdge | xenon-fsm/src/main/java/com/tteky/xenonext/fsm/core/StateMachine.java:86-97 | A patch that writes had a trigger and a matching state, and moves along a registered edge |
| PatchSemantics.OrderKeepsOutcomes | xenon-fsm/src/main/java/com/tteky/xenonext/fsm/core/StateMachine.java:37-97 | Any permutation of the registrations gives the same transition function: every patch has the same outcome in every state |
| PatchMeaning.OutcomeOfPatch | xenon-fsm/src/main/java/com/tteky/xenonext/fsm/FSMService.java:112-121 | No trigger and a stale state are refused; any other patch fires its trigger in the document’s state |
| PatchMeaning.OutcomeOfFiring | xenon-fsm/src/main/java/com/tteky/xenonext/fsm/core/StateMachine.java:37-97 | Exactly one log entry for state and trigger with an absent or satisfied guard fires and leads to its destination, known or unknown; none is not permitted, several are ambiguous, an unconfigured state throws |
| PatchMeaning.PermittedNow | xenon-fsm/src/main/java/com/tteky/xenonext/fsm/core/StateRepresentation.java:137-149 | A trigger is permitted exactly when some log entry of the state serves it with an absent or satisfied guard |
| PatchMeaning.ExitActionsAt | xenon-fsm/src/main/java/com/tteky/xenonext/fsm/core/StateRepresentation.java:115-120 | The exit actions of a state are those the log adds to it, each once for each entry, in their order |
| PatchMeaning.EntryActionsAt | xenon-fsm/src/main/java/com/tteky/xenonext/fsm/core/StateRepresentation.java:61-113 | The entry actions that run are those the log adds to the destination always or for the trigger, each once for each entry, in their order |
| PatchMeaning.TraceOfPatch | xenon-fsm/src/main/java/com/tteky/xenonext/fsm/core/StateMachine.java:68-79 | Position by position: the write, every exit action of the source, one schedule call with the expiries of the destination if it has any and there is a scheduler, every entry action for the trigger |
| PatchMeaning.TraceOfStray | xenon-fsm/src/main/java/com/tteky/xenonext/fsm/core/StateMachine.java:70-75 | Towards an unconfigured destination: the write and every exit action of the source, nothing more |
| PatchMeaning.DocumentAfter | xenon-fsm/src/main/java/com/tteky/xenonext/fsm/ExpiryScheduler.java:32-36 | State and trigger are those of the transition; the expiry fields are set when the destination has expiries and kept otherwise |
| PatchMeaning.TimersAfter | xenon-fsm/src/main/java/com/tteky/xenonext/fsm/ExpiryScheduler.java:38-57 | An accepted patch adds, for each trigger with an expiry in the destination, one timer due after the delay that the last log entry sets |
| PatchMeaning.LogEdgesAt | xenon-fsm/src/main/java/com/tteky/xenonext/fsm/core/StateMachineConfig.java:74-83 | The edges of the log are those of its behaviours, each once for each entry, in their order |
| Refinement.HandleAndStore | xenon-fsm/src/main/java/com/tteky/xenonext/fsm/FSMService.java:105-122 | The service’s own handler, followed by storing, takes exactly the step that a delivery takes in a run |
| FsmRuns.StartIsInitial | xenon-fsm/src/main/java/com/tteky/xenonext/fsm/FSMService.java:72-83 | What the creating post leaves behind, self-patch included, starts a run |
| FsmRuns.TimerSteps | xenon-fsm/src/main/java/com/tteky/xenonext/fsm/ExpiryScheduler.java:39-55 | A timer whose delay has passed leaves the executor for its GET, which either turns it into a patch or loses it |
| FsmRuns.Deliveries | xenon-fsm/src/main/java/com/tteky/xenonext/fsm/ExpiryScheduler.java:44-49 | Client patches can always arrive, the self-patch and expiry patches when they are on their way; an expiry patch carries the state and trigger of its timer |
| FsmRuns.SelfPatchOnce | xenon-fsm/src/main/java/com/tteky/xenonext/fsm/FSMService.java:78-83 | The self-patch is delivered at most once |
| FsmRuns.NothingStored | xenon-fsm/src/main/java/com/tteky/xenonext/fsm/FSMService.java:112-118 | A delivery that does not commit leaves document, versions and executor as they were, and runs actions exactly when it fired its trigger all the same, towards an unconfigured destination |
| FsmRuns.CommitStores | xenon-fsm/src/main/java/com/tteky/xenonext/fsm/FSMService.java:129-138 | A commit stores one new version, reached from the old state along a configured edge, and its patch was tagged with that old state or not at all |
| FsmRuns.CompetingTriggers | xenon-fsm/src/main/java/com/tteky/xenonext/fsm/FSMService.java:105-121 | Of all patches tagged with a state that are delivered, in any order, while that state is not entered or re-entered, at most one is accepted |
| FsmRuns.TimerHasOrigin | xenon-fsm/src/main/java/com/tteky/xenonext/fsm/ExpiryScheduler.java:38-57 | Every timer the system holds was scheduled by an earlier accepted transition into its state, with that state’s delay |
| FsmRuns.OnlyDueTimersFetch | xenon-fsm/src/main/java/com/tteky/xenonext/fsm/ExpiryScheduler.java:39-55 | A timer being fetched or in flight is due |
| FsmRuns.TimerSafety | xenon-fsm/src/main/java/com/tteky/xenonext/fsm/ExpiryScheduler.java:32-57 | An accepted expiry patch finds the document in the very state whose entry scheduled it, with a trigger of that state’s expiry map, which it fires, at least the delay after that entry |
| TimerConservation.TimersAreConserved | xenon-fsm/src/main/java/com/tteky/xenonext/fsm/core/StateRepresentation.java:92-101 | At every point of a run, the expiries of all accepted destinations add up to the timers pending, being fetched and in flight plus those accepted, refused and lost |
| TimerConservation.NoTimerFiresTwice | xenon-fsm/src/main/java/com/tteky/xenonext/fsm/ExpiryScheduler.java:38-57 | No timer delivers two patches, so none causes two accepted transitions |
| TimerConservation.GoneForGood | xenon-fsm/src/main/java/com/tteky/xenonext/fsm/ExpiryScheduler.java:38-57 | A timer that left the system never comes back |
| TimerConservation.ForeignExpiryIsRefused | xenon-fsm/src/main/java/com/tteky/xenonext/fsm/FSMService.java:115-117 | An expiry patch for a state the document is not in is refused as stale; document, versions, executor and actions stay, and its timer never comes back |
| RunInvariants.ClosedStaysConfigured | xenon-fsm/src/main/java/com/tteky/xenonext/fsm/core/StateMachine.java:86-97 | A closed machine that starts in a configured state is always in one |
| RunInvariants.ClosedNeverStuck | xenon-fsm/src/main/java/com/tteky/xenonext/fsm/core/StateMachine.java:37-97 | In a closed machine every patch is accepted, refused or stopped by ambiguity, and one that is not accepted leaves document, versions, timers and actions alone |
| RunInvariants.UnconfiguredIsForever | xenon-fsm/src/main/java/com/tteky/xenonext/fsm/core/StateMachine.java:37-38 | A document once stored in an unconfigured state never changes again |
| RunInvariants.ActionTrace | xenon-fsm/src/main/java/com/tteky/xenonext/fsm/core/StateMachine.java:68-79 | The actions of any run of any machine are those of the patches that fired a trigger, in order: persist, the exit actions, one schedule call if there are expiries, the entry actions, cut short after the exit actions if the destination is unconfigured |
| RunInvariants.StrayPatchActs | xenon-fsm/src/main/java/com/tteky/xenonext/fsm/core/StateMachine.java:70-75 | A patch towards an unconfigured destination that no action has completed is not stored, yet has run the exit actions of a state that is not left |
| RunInvariants.CommittedTraceIff | xenon-fsm/src/main/java/com/tteky/xenonext/fsm/core/StateMachine.java:68-79 | The actions of a run are those of its stored patches, in order and no others, if and only if no patch strays in that way |
| RunInvariants.ClosedActionTrace | xenon-fsm/src/main/java/com/tteky/xenonext/fsm/core/StateMachine.java:68-79 | In a closed machine started in a configured state the actions are exactly those of the stored patches |
| Reachability.Follow | xenon-fsm/src/main/java/com/tteky/xenonext/fsm/core/StateMachine.java:68-97 | Every path of a configuration can be followed from any run that ends where it starts, and schedules the expiries of its last state |
| Reachability.PathTaken | xenon-fsm/src/main/java/com/tteky/xenonext/fsm/core/StateMachine.java:68-97 | Between two points of a run from which it can still move, the commits form a path of the configuration, one transition for each version |
| StrayActions.StrayActionsIff | xenon-fsm/src/main/java/com/tteky/xenonext/fsm/core/StateMachine.java:70-75 | Some run of a document posted in a state has actions of patches that are not stored if and only if the configuration reaches, from there, a behaviour towards an unconfigured state |
| RunInvariants.ExpiryFieldsRemember | xenon-fsm/src/main/java/com/tteky/xenonext/fsm/ExpiryScheduler.java:32-36 | After any run the expiry fields are those of the latest accepted transition whose destination has expiries, and the posted ones if there was none |
| StaleTimers.StaleTimerEndsALaterVisit | xenon-fsm/src/main/java/com/tteky/xenonext/fsm/ExpiryScheduler.java:38-57 | For every state that can be reached and lies on a cycle, of any length and left by any triggers, whose expiry can fire, some run accepts the expiry of an earlier visit right after the state was entered again |
| StaleTimers.StaleTimerIff | xenon-fsm/src/main/java/com/tteky/xenonext/fsm/ExpiryScheduler.java:38-57 | For documents posted in a given state, an expiry can end a visit other than the one that scheduled it if and only if it is registered, can fire, and its state can be reached and lies on a cycle of the configuration |
| StaleTimers.EndsItsOwnVisitIff | xenon-fsm/src/main/java/com/tteky/xenonext/fsm/ExpiryScheduler.java:44-46 | An accepted expiry ends the visit that scheduled it, after its whole delay, if and only if the document still has the version it was scheduled with |
| StaleTimers.VersionsGrow | xenon-fsm/src/main/java/com/tteky/xenonext/fsm/FSMService.java:129-138 | Two points of a run have the same version exactly when nothing was committed between them |
| History.SortByVersion | xenon-fsm/src/main/java/com/tteky/xenonext/fsm/core/StateMachineConfig.java:94 | Leaves the array sorted by version |
| History.SortedSorts | xenon-fsm/src/main/java/com/tteky/xenonext/fsm/core/StateMachineConfig.java:94 | The sorted array is ordered by version and a permutation of the given one |
| History.SortedIsStable | xenon-fsm/src/main/java/com/tteky/xenonext/fsm/core/StateMachineConfig.java:94 | Versions with the same number keep the order they were handed over in |
| History.GenerateDotFile | xenon-fsm/src/main/java/com/tteky/xenonext/fsm/core/StateMachineConfig.java:88-110 | The loop over the sorted array draws exactly the edges between neighbouring versions, skipping targets without a state |
| History.PairEdgesAt | xenon-fsm/src/main/java/com/tteky/xenonext/fsm/core/StateMachineConfig.java:96-108 | One edge for each version but the first that has a state, in order, from the state before it, null or not, under its own trigger |
| History.RunRecords | xenon-fsm/src/main/java/com/tteky/xenonext/fsm/core/StateMachineConfig.java:96-108 | The stored versions of a run are consecutive, end with the document, and pair up to its walk, all of it on configured edges |
| History.HistorySoundness | xenon-fsm/src/main/java/com/tteky/xenonext/fsm/core/StateMachineConfig.java:72-110 | For every run and every permutation of its stored versions, sorting and pairing draws exactly the committed walk in order, one edge fewer than versions, each edge one of the configuration |
| UriPaths.TokensOfJoin | jaxrs-support/src/main/java/com/tteky/xenonext/jaxrs/service/RoutingOperationHandler.java:211 | Splitting a path undoes joining its tokens |
| UriPaths.JoinOfTokens | jaxrs-support/src/main/java/com/tteky/xenonext/jaxrs/service/RoutingOperationHandler.java:211 | Joining the tokens of a path gives the path back |
| UriPaths.NormalizeKeepsTokens | jaxrs-support/src/main/java/com/tteky/xenonext/jaxrs/service/RoutingOperationHandler.java:210-211 | Normalising a rooted path does not change its split |
| UriPaths.SplitIs | jaxrs-support/src/main/java/com/tteky/xenonext/jaxrs/service/RoutingOperationHandler.java:211 | Of any string, the split leaves out exactly the empty tokens at the end; without a slash it is the string |
| Templates.SplitText | jaxrs-support/src/main/java/com/tteky/xenonext/jaxrs/service/RoutingOperationHandler.java:65 | A template splits into its segments, behind an empty token if it starts with a slash, whether or not it ends with one |
| Templates.BuiltPath | jaxrs-support/src/main/java/com/tteky/xenonext/jaxrs/service/RequestRouterBuilder.java:67 | A service link with a template below it is one rooted path with the segments of both |
| ProxyHandler.BuildOperation | jaxrs-support/src/main/java/com/tteky/xenonext/jaxrs/client/ProxyHandler.java:132-162 | The loop computes the path of the parameters substituted one after the other, throws exactly when a substitution does, and leaves the path alone when no path parameter has an argument |
| ProxyHandler.OtherParameter | jaxrs-support/src/main/java/com/tteky/xenonext/jaxrs/client/ProxyHandler.java:139-157 | Parameters of other kinds and null arguments leave the path as it is |
| ProxyHandler.PathParameter | jaxrs-support/src/main/java/com/tteky/xenonext/jaxrs/client/ProxyHandler.java:144-146 | A path parameter with an argument replaces its pattern in what the ones before made, and throws where there is no path |
| ProxyHandler.ExpandEscape | jaxrs-support/src/main/java/com/tteky/xenonext/jaxrs/client/ProxyHandler.java:145-146 | In an argument a backslash stands for the next character and throws at the end |
| ProxyHandler.ExpandReference | jaxrs-support/src/main/java/com/tteky/xenonext/jaxrs/client/ProxyHandler.java:145-146 | In an argument a dollar sign with a zero stands for the pattern, and throws with anything else |
| ProxyHandler.QuotedExpandsToItself | jaxrs-support/src/main/java/com/tteky/xenonext/jaxrs/client/ProxyHandler.java:145-146 | An argument whose dollar signs and backslashes are quoted is put in as it was |
| ProxyHandler.ArgumentReachesPathIff | jaxrs-support/src/main/java/com/tteky/xenonext/jaxrs/client/ProxyHandler.java:145-146 | For every well-formed template that names the parameter and every text of the argument, the path after the replacement is the template with the argument in its place if and only if the argument has no dollar sign and no backslash |
| ProxyHandler.ReplacementShows | jaxrs-support/src/main/java/com/tteky/xenonext/jaxrs/client/ProxyHandler.java:145-146 | Two different replacements of an occurring parameter never give the same path |
| ProxyHandler.ReplaceInTemplate | jaxrs-support/src/main/java/com/tteky/xenonext/jaxrs/client/ProxyHandler.java:145-146 | Replacing one parameter in the text of a template replaces exactly its segments |
| ProxyHandler.PlainAtOnce | jaxrs-support/src/main/java/com/tteky/xenonext/jaxrs/client/ProxyHandler.java:139-157 | For plain values the one-at-a-time substitution is the simultaneous one, each name getting the first value given for it |
| SubstitutionOrder.OneAtATimeIsAtOnce | jaxrs-support/src/main/java/com/tteky/xenonext/jaxrs/client/ProxyHandler.java:139-157 | For arguments of any text, the loop puts at every point the first argument of each name in its place and changes nothing else if and only if every argument fits those before it: no dollar sign and backslash in the first argument for a parameter of the template, and an argument for a parameter that an earlier one mentions writes back that parameter |
| SubstitutionOrder.UnmentionedIsAtOnce | jaxrs-support/src/main/java/com/tteky/xenonext/jaxrs/client/ProxyHandler.java:139-157 | Arguments without dollar sign and backslash are substituted as if at once when none, for a parameter of the template, contains the pattern of a later parameter |
| SubstitutionOrder.VerbatimAtOnceIff | jaxrs-support/src/main/java/com/tteky/xenonext/jaxrs/client/ProxyHandler.java:139-157 | Arguments without dollar sign and backslash, under distinct names, are always substituted as if at once if and only if every parameter mentioned by an earlier argument has itself as its argument |
| SubstitutionOrder.ArgumentIsSubstitutedAgain | jaxrs-support/src/main/java/com/tteky/xenonext/jaxrs/client/ProxyHandler.java:139-157 | The template with a and b, given the pattern of b for a and x for b, becomes x twice |
| SubstitutionOrder.OrderIsIrrelevantUnlessMentioned | jaxrs-support/src/main/java/com/tteky/xenonext/jaxrs/client/ProxyHandler.java:139-157 | Under distinct names, arguments without dollar sign and backslash that mention no parameter of each other can be substituted in any order |
| SubstitutionOrder.ReplaceSplits | jaxrs-support/src/main/java/com/tteky/xenonext/jaxrs/client/ProxyHandler.java:145-146 | Replacing a parameter works on the text before and after a slash separately |
| SubstitutionOrder.JoinedApart | jaxrs-support/src/main/java/com/tteky/xenonext/jaxrs/client/ProxyHandler.java:145-146 | Two lists of segments, with slashes of their own or not, give the same path only if they are equal, provided that none of the one has fewer slashes than its counterpart |
| ProxyHandler.ParameterOrderIsIrrelevant | jaxrs-support/src/main/java/com/tteky/xenonext/jaxrs/client/ProxyHandler.java:139-157 | Parameters with distinct names can be substituted in any order |
| RequestRouter.Test | jaxrs-support/src/main/java/com/tteky/xenonext/jaxrs/service/RequestRouterBuilder.java:100-120 | Decides the matching: an exact route is compared with the normalised path, a dynamic one token by token by the index loop with its early exits |
| RequestRouter.MatcherOf | jaxrs-support/src/main/java/com/tteky/xenonext/jaxrs/service/RequestRouterBuilder.java:77-84 | A well-formed route is matched token by token exactly when it has a parameter, and whole otherwise |
| RouteMatching.RouteAccepts | jaxrs-support/src/main/java/com/tteky/xenonext/jaxrs/service/RequestRouterBuilder.java:77-120 | A route text without both braces accepts the paths that normalise to it; one with both accepts as many tokens that agree outside tokens in braces |
| RouteMatching.ExactAcceptsIff | jaxrs-support/src/main/java/com/tteky/xenonext/jaxrs/service/RequestRouterBuilder.java:80-82 | A well-formed route without parameters accepts its own text with or without a slash at either end, and nothing else |
| RouteMatching.DynamicAcceptsIff | jaxrs-support/src/main/java/com/tteky/xenonext/jaxrs/service/RequestRouterBuilder.java:86-123 | A well-formed route with parameters accepts exactly the rooted paths with its literals in their places and any tokens at its parameters, the last token not empty, with any number of slashes behind |
| RequestRouter.AcceptedSplits | jaxrs-support/src/main/java/com/tteky/xenonext/jaxrs/service/RoutingOperationHandler.java:208-216 | Whatever a route accepts has as many tokens as the route, and normalising it keeps them |
| RequestRouter.ParsePathParams | jaxrs-support/src/main/java/com/tteky/xenonext/jaxrs/reflect/MethodInfoBuilder.java:148-163 | The index loop computes the map from names to token positions |
| RequestRouter.RoutingOperationHandler.Init | jaxrs-support/src/main/java/com/tteky/xenonext/jaxrs/service/RoutingOperationHandler.java:59-66 | For every route below a service link, with or without a path of its own, the offset is the number of tokens the link adds |
| RequestRouter.OffsetOfRoute | jaxrs-support/src/main/java/com/tteky/xenonext/jaxrs/service/RoutingOperationHandler.java:63-65 | The offset counts the segments of the link, and the leading empty token unless the method’s template starts with a slash itself |
| RequestRouter.RoutingOperationHandler.ParsePathValues | jaxrs-support/src/main/java/com/tteky/xenonext/jaxrs/service/RoutingOperationHandler.java:208-216 | The loop maps each position to its token |
| RequestRouter.RoutingOperationHandler.FindPathInput | jaxrs-support/src/main/java/com/tteky/xenonext/jaxrs/service/RoutingOperationHandler.java:141-144 | Looks the token up at index plus offset, the index of an unknown name being -1 |
| PathRoundTrip.IndexIsLast | jaxrs-support/src/main/java/com/tteky/xenonext/jaxrs/reflect/MethodInfoBuilder.java:151-158 | The map has exactly the names that occur as parameters, each at its last position |
| PathRoundTrip.ParamIndicesIs | jaxrs-support/src/main/java/com/tteky/xenonext/jaxrs/reflect/MethodInfoBuilder.java:148-163 | Of any path, the map has exactly the names that stand as whole tokens in braces, each at its last position; nothing without a path |
| PathRoundTrip.IndexAlignment | jaxrs-support/src/main/java/com/tteky/xenonext/jaxrs/service/RoutingOperationHandler.java:59-66 | Index plus offset is the position of the parameter’s last occurrence in the full path, for templates with or without leading and trailing slash |
| PathRoundTrip.AcceptedHasValues | jaxrs-support/src/main/java/com/tteky/xenonext/jaxrs/service/RoutingOperationHandler.java:141-144 | Every request a route accepts has a value for every parameter its template names, the token at that position |
| PathRoundTrip.UndeclaredIsNeverNull | jaxrs-support/src/main/java/com/tteky/xenonext/jaxrs/service/RoutingOperationHandler.java:143-144 | A path parameter that the method’s path, if it has one, does not name never comes out null: it gets the last token of the service link, or the one before it if the method’s path starts with a slash, which is empty for a link of one segment |
| PathRoundTrip.RequestIsBuilt | jaxrs-support/src/main/java/com/tteky/xenonext/jaxrs/client/ProxyHandler.java:158 | What the client builds from link and template is the template with all values bound below the link |
| PathRoundTrip.RequestIsAccepted | jaxrs-support/src/main/java/com/tteky/xenonext/jaxrs/service/RequestRouterBuilder.java:100-120 | The server’s matcher accepts every path the client builds for the route |
| PathRoundTrip.LinkIsAccepted | jaxrs-support/src/main/java/com/tteky/xenonext/jaxrs/service/RequestRouterBuilder.java:77-84 | A method without a path of its own is reached at the service link |
| PathRoundTrip.RoundTrip | jaxrs-support/src/main/java/com/tteky/xenonext/jaxrs/client/ProxyHandler.java:132-162 | For every well-formed template, link and plain values, the client’s path is accepted and the server’s lookup returns for every named parameter the value the client passed |
| PathRoundTrip.RouteOverlap | jaxrs-support/src/main/java/com/tteky/xenonext/jaxrs/service/RequestRouterBuilder.java:86-123 | Two routes, with or without parameters, share a request path if and only if they have as many segments and at each position equal literals or a parameter |
| Features.SameIdIff | jaxrs-support/src/main/java/com/tteky/xenonext/util/feature/Feature.java:35-37 | Two (group, name) pairs form the same identifier exactly when they are equal or one group absorbs the other’s separator; never with colon-free groups |
| Features.FeatureDao.NewFeature | jaxrs-support/src/main/java/com/tteky/xenonext/util/feature/FeatureServiceImpl.java:33-36 | Stores the posted feature under its own identifier with the default strategy filled in, or refuses it and changes nothing when group or name is missing or the identifier is taken |
| Features.FeatureDao.HandlePatch | jaxrs-support/src/main/java/com/tteky/xenonext/util/feature/FeatureDao.java:40-49 | Changes only the enable flag and a given strategy, so every document stays under the identifier of its own group and name |
| Features.FeatureDao.EnableFeature | jaxrs-support/src/main/java/com/tteky/xenonext/util/feature/FeatureServiceImpl.java:61-65 | Changes the enable flag of exactly that feature, and nothing else |
| Features.FeaturesCache.FindFeature | jaxrs-support/src/main/java/com/tteky/xenonext/util/feature/FeaturesCache.java:37-44 | Answers with what is cached or a disabled placeholder, which it keeps |
| Features.FeaturesCache.HandleFeatureUpdate | jaxrs-support/src/main/java/com/tteky/xenonext/util/feature/FeaturesCache.java:154-162 | Applies one change under the identifier of the feature’s own group and name |
| Features.FeaturesCache.HandleFeatureUpdates | jaxrs-support/src/main/java/com/tteky/xenonext/util/feature/FeaturesCache.java:130-152 | Applies the feature documents of a batch in turn and skips other kinds: afterwards every identifier holds what the last document about it says, put or removed, and those without a document are untouched |
| Features.FeatureChangesAt | jaxrs-support/src/main/java/com/tteky/xenonext/util/feature/FeaturesCache.java:139-150 | The changes of a notification are those of its feature documents, each once, in their order |
| Features.OnlyTheLastCounts | jaxrs-support/src/main/java/com/tteky/xenonext/util/feature/FeaturesCache.java:154-162 | After any changes, an identifier holds what its last change left |
| Features.BatchIsWindow | jaxrs-support/src/main/java/com/tteky/xenonext/util/feature/FeaturesCache.java:139-150 | A batch amounts to the stretch of commits it reports, whatever its order |
| FeatureRuns.AlwaysGood | jaxrs-support/src/main/java/com/tteky/xenonext/util/feature/FeaturesCache.java:37-44 | In every run the store is keyed by its features’ identifiers and is its commits replayed, and the cache is what it was told plus disabled placeholders |
| FeatureRuns.CacheAgreement | jaxrs-support/src/main/java/com/tteky/xenonext/util/feature/FeaturesCache.java:37-44 | At every point the cache answers as the store stood at the last delivered notification, absent meaning disabled; once all are delivered, as the store stands |
| FeatureRuns.AnswerIsForThePair | jaxrs-support/src/main/java/com/tteky/xenonext/util/feature/FeaturesCache.java:37-44 | Where no group has a colon, the answer is about the very feature asked for, and is enabled exactly when the store holds that feature enabled |
| FeatureRuns.FindChangesNoAnswer | jaxrs-support/src/main/java/com/tteky/xenonext/util/feature/FeaturesCache.java:38-43 | The placeholder a lookup leaves behind changes no later answer |
| FeatureRuns.ToldIsKeyed | jaxrs-support/src/main/java/com/tteky/xenonext/util/feature/FeatureDao.java:40-49 | Replaying any changes keeps every feature under the identifier of its own group and name |
| FeatureRuns.OperationSteps | jaxrs-support/src/main/java/com/tteky/xenonext/util/feature/FeatureDao.java:26-49 | In a run, a post, a patch and a deletion do to the store what its handlers do, and commit that one change |
| Completion.CompletableFuture.Resolve | jaxrs-support/src/main/java/com/tteky/xenonext/jaxrs/service/RoutingOperationHandler.java:189-203 | Only the first resolution counts, and it runs the callback that applies to it |
| Completion.CompletableFuture.Exceptionally | jaxrs-support/src/main/java/com/tteky/xenonext/jaxrs/service/RoutingOperationHandler.java:190-198 | Leaving the failure callback fails the request at once if the future already failed |
| Completion.CompletableFuture.ThenAccept | jaxrs-support/src/main/java/com/tteky/xenonext/jaxrs/service/RoutingOperationHandler.java:200-203 | Leaving the success callback completes the request at once if the future already succeeded |
| Completion.FailureCallback | jaxrs-support/src/main/java/com/tteky/xenonext/jaxrs/service/RoutingOperationHandler.java:191-196 | Fails the request, except for a wrapper without a cause, which throws first |
| Completion.SuccessCallback | jaxrs-support/src/main/java/com/tteky/xenonext/jaxrs/service/RoutingOperationHandler.java:200-203 | Completes the request if its body can be set |
| Completion.ResolveAll | jaxrs-support/src/main/java/com/tteky/xenonext/jaxrs/service/RoutingOperationHandler.java:189-203 | After any attempts, the request has been settled as the first resolution says; attempts on a resolved future change nothing |
| Completion.Serve | jaxrs-support/src/main/java/com/tteky/xenonext/jaxrs/service/RoutingOperationHandler.java:69-205 | For methods without an Operation parameter, in every order of return, exception and resolution attempts around the two callbacks: refused inputs, exceptions, results and null futures end the request as they should, a future ends it as its first resolution says, at most once, and exactly once unless it is never resolved, resolves with a body that cannot be set, or fails with an empty wrapper |
| HttpErrors.RoundTripKeepsChain | jaxrs-support/src/main/java/com/tteky/xenonext/util/HttpErrorResponse.java:16-62 | Chains of any length keep their length and, per level, code (55055 for foreign exceptions), message, stack and context, and each level records the type it had |
| HttpErrors.FromKeepsChain | jaxrs-support/src/main/java/com/tteky/xenonext/util/HttpErrorResponse.java:16-37 | The response has a level for every exception: code, context and developer message of the library’s own, 55055 and the message of any other, stack and type of both |
| HttpErrors.ToErrorKeepsChain | jaxrs-support/src/main/java/com/tteky/xenonext/util/HttpErrorResponse.java:46-62 | The rebuilt exception has a level for every level of the response, with its code, message and type, its stack or the one of the place, its context or an empty one |
| HttpErrors.ChainFollowsCauses | jaxrs-support/src/main/java/com/tteky/xenonext/util/HttpErrorResponse.java:29-31 | The chain starts with the exception, follows its causes one by one, and ends at one without a cause |
| HttpErrors.SecondRoundTrip | jaxrs-support/src/main/java/com/tteky/xenonext/util/HttpErrorResponse.java:16-62 | A second round trip changes nothing but the recorded type names |

## Left out

- Replication, owner selection, indexing, request transport and route order of the host framework.
- Reflection, proxies and the discovery of methods and parameter annotations.
- JSON, bean validation beyond its outcome, percent-encoding of URIs, query parameters, headers and cookies.
- The text format of the drawn graphs: they are sequences of edges, compared as multisets where the
  original iterates over a hash map.
- History.SortByVersion: the library sort inside `generateDotFile` is modelled by its result, a stable
  sort, and not by how it exchanges elements.
- The statistics service and its user interface, the client builder, query contracts and interceptors.
- Aliasing: the feature object a lookup returns, the expiry map shared by machine and document, and the
  posted body whose trigger the self-patch overwrites are copied here.
- Templates without any segment, such as a single slash, and service links without one.
- Methods that take the operation itself as a parameter complete it on their own and are not part of
  `Completion`.
- Direct updates of stored features other than patches and deletions, and user overrides of the handlers.
- The HTTP status and the printed stack trace of an error response.
- `Feature.toOptional`, the listing of features, and the registration of a service with the statistics
  service.
