/** The service's own request handler takes exactly the steps of the runs. */
module Refinement {
  import opened Registrations
  import opened Documents
  import opened PatchSemantics
  import opened StateTable
  import opened StateMachines
  import opened FsmRuns

  /**
   Delivers a patch to the service and stores the document if the request committed. Document,
   timers and actions end as in the step that delivers this patch in a run.
   */
  method HandleAndStore(service: FsmService, op: Operation, origin: Origin, env: Env, early: bool, ghost s: Sys)
    returns (stored: Doc)
    requires service.stateMachine.Valid() && Enabled(s, Deliver(origin, env, early))
    requires op.linked == s.doc && Patch(op.bodyState, op.bodyTrigger) == PatchOf(s, origin)
    requires service.stateMachine.host.clock == s.clock
    requires service.stateMachine.host.executor == s.executor
    requires service.stateMachine.host.effects == s.effects
    modifies op, service.stateMachine`expiryScheduler
    modifies service.stateMachine.host`executor, service.stateMachine.host`effects
    ensures service.stateMachine.Valid()
    ensures var s' := Next(service.stateMachine.config.log, s, Deliver(origin, env, early));
            && stored == s'.doc
            && service.stateMachine.host.executor == s'.executor
            && service.stateMachine.host.effects == s'.effects
  {
    hide StateMachineConfig.Valid, StateRepresentation.Holds;
    var before := op.linked;
    var o := service.HandlePatch(op, env);
    stored := before;
    if o.Accepted? || (o.DestinationUnknown? && early) {
      stored := op.linked.(version := before.version + 1);
    }
  }
}
