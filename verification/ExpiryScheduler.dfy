/** Records a state's expiry in the document and schedules the timers that will patch it. */
module ExpiryScheduling {
  import opened Options
  import opened Documents

  class ExpiryScheduler {
    const host: Host

    constructor (host: Host)
      ensures this.host == host
    {
      this.host := host;
    }

    method Accept(delays: map<string, int>, transition: Transition)
      modifies transition.cause`linked, host`executor, host`effects
      ensures transition.cause.linked == old(transition.cause.linked).(
                expireFromState := Some(transition.destination),
                expiryTriggerAndDelays := Some(delays))
      ensures host.executor == old(host.executor).Schedule(delays, transition.destination,
                old(transition.cause.linked.version) + 1, host.clock)
      ensures host.effects == old(host.effects) + [Scheduled(delays, transition.destination)]
    {
      var curState := transition.cause.linked;
      curState := curState.(expireFromState := Some(transition.destination));
      curState := curState.(expiryTriggerAndDelays := Some(delays));
      transition.cause.linked := curState;
      host.effects := host.effects + [Scheduled(delays, transition.destination)];

      var serial := curState.version + 1;
      var left := delays.Keys;
      while left != {}
        invariant left <= delays.Keys
        invariant host.executor.timers == old(host.executor.timers) +
                    TimersFor(delays.Keys - left, delays, transition.destination, serial, host.clock)
        invariant host.effects == old(host.effects) + [Scheduled(delays, transition.destination)]
        invariant transition.cause.linked == curState
      {
        var t :| t in left;
        var timer := Timer(serial, t, transition.destination, host.clock + delays[t]);
        host.executor := Executor(host.executor.timers + {timer});
        left := left - {t};
      }
      assert delays.Keys - left == delays.Keys;
    }
  }
}
