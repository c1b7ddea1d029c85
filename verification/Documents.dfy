/** The state machine's document, and the parts of the host that a patch can reach. */
module Documents {
  import opened Options

  /** The persisted fields of a state machine document, with the version the store gives it. */
  datatype Doc = Doc(
    state: Option<string>,
    trigger: Option<string>,
    expireFromState: Option<string>,
    expiryTriggerAndDelays: Option<map<string, int>>,
    version: int)

  /**
   A scheduled expiry: it patches `trigger` onto the document, tagged with `fromState`, no
   sooner than `dueAt`. The version its transition commits as, and its trigger, identify it.
   */
  datatype Timer = Timer(serial: int, trigger: string, fromState: string, dueAt: int)

  /** What one patch does besides writing the document, in the order it does it. */
  datatype Effect =
    | Persisted(source: string, trigger: string, destination: string)
    | Exited(id: nat)
    | Scheduled(delays: map<string, int>, fromState: string)
    | Entered(id: nat)

  /** One timer for every trigger of the expiry map. */
  function NewTimers(delays: map<string, int>, from: string, serial: int, now: int): set<Timer> {
    TimersFor(delays.Keys, delays, from, serial, now)
  }

  /** The host's scheduled executor. */
  datatype Executor = Executor(timers: set<Timer>) {
    function Schedule(delays: map<string, int>, from: string, serial: int, now: int): Executor {
      Executor(timers + NewTimers(delays, from, serial, now))
    }
  }

  function TimersFor(triggers: set<string>, delays: map<string, int>, from: string, serial: int, now: int)
    : set<Timer>
    requires triggers <= delays.Keys
  {
    set t | t in triggers :: Timer(serial, t, from, now + delays[t])
  }

  lemma {:induction false} TimersForCount(triggers: set<string>, delays: map<string, int>, from: string,
                                          serial: int, now: int)
    requires triggers <= delays.Keys
    ensures |TimersFor(triggers, delays, from, serial, now)| == |triggers|
  {
    if triggers != {} {
      var t :| t in triggers;
      var rest := triggers - {t};
      TimersForCount(rest, delays, from, serial, now);
      assert TimersFor(triggers, delays, from, serial, now) ==
             TimersFor(rest, delays, from, serial, now) + {Timer(serial, t, from, now + delays[t])};
    }
  }

  /** An expiry map schedules as many timers as it has triggers. */
  lemma NewTimersCount(delays: map<string, int>, from: string, serial: int, now: int)
    ensures |NewTimers(delays, from, serial, now)| == |delays|
  {
    TimersForCount(delays.Keys, delays, from, serial, now);
  }

  /** A request on the document: the working copy linked to it, its body, and its outcome. */
  class Operation {
    var linked: Doc
    var bodyState: Option<string>
    var bodyTrigger: Option<string>
    var statusCode: int
    var completed: bool
    var failed: bool

    constructor (linked: Doc, bodyState: Option<string>, bodyTrigger: Option<string>)
      ensures this.linked == linked && this.bodyState == bodyState && this.bodyTrigger == bodyTrigger
      ensures statusCode == 200 && !completed && !failed
    {
      this.linked, this.bodyState, this.bodyTrigger := linked, bodyState, bodyTrigger;
      statusCode, completed, failed := 200, false, false;
    }
  }

  datatype Transition = Transition(source: string, destination: string, trigger: string, cause: Operation)

  /** The service host: its clock, its scheduled executor, and the actions it has run. */
  class Host {
    var clock: int
    var executor: Executor
    var effects: seq<Effect>
  }
}
