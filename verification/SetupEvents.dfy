/** What the guided domain setup reports, on the server and in the browser. */
module SetupEvents {
  import opened Options

  datatype StepId = AppDns | ApiDns | Ssl
  datatype Status = Running | Done | Failed

  /** The data of a "step" event, and of a "result" event. */
  datatype Payload =
    | Progress(step: StepId, status: Status, message: Option<string>)
    | Final(isSuccess: bool, firstError: Option<string>)

  datatype Event = Event(name: string, data: Payload)

  /** What one call of the setup service does: it reports progress, then returns its result or throws. */
  datatype Outcome = Returns(result: Payload) | Throws
  datatype Setup = Setup(progress: seq<Payload>, outcome: Outcome)
  {
    ghost predicate Valid()
    {
      (forall p | p in progress :: p.Progress?) && (outcome.Returns? ==> outcome.result.Final?)
    }
  }

  const SETUP_FAILED := Final(false, Some("Domain setup failed unexpectedly. Please try again."))
  const MISSING_DOMAIN := Final(false, Some("domain name is missing"))

  function FinalOf(s: Setup): Payload
  {
    if s.outcome.Returns? then s.outcome.result else SETUP_FAILED
  }

  predicate IsSuccess(p: Payload) { p.Final? && p.isSuccess }

  function StepEvents(progress: seq<Payload>): seq<Event>
  {
    seq(|progress|, i requires 0 <= i < |progress| => Event("step", progress[i]))
  }

  /** Everything a run has to report, in order. */
  function AllEvents(s: Setup): seq<Event>
  {
    StepEvents(s.progress) + [Event("result", FinalOf(s))]
  }
}
