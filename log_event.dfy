/** The engagement-event logger's mapping from a user action on a
    recommendation to the recommendation's recorded outcome. */
module LogEvent {

  const Accepted: string := "accepted"
  const Rejected: string := "rejected"
  const Pending: string := "pending"

  /** The actions that count as taking a recommendation up. */
  predicate IsAcceptingEvent(eventType: string)
  {
    eventType == "save" || eventType == "contact" || eventType == "view_suppliers"
  }

  /** `getOutcomeFromEvent`: total over all event names, and always one of the
      three outcome strings; every name it does not know is still pending. */
  function OutcomeFromEvent(eventType: string): (outcome: string)
    ensures outcome == Accepted || outcome == Rejected || outcome == Pending
    ensures outcome == Accepted <==> IsAcceptingEvent(eventType)
    ensures outcome == Rejected <==> eventType == "reject"
    ensures outcome == Pending <==> !IsAcceptingEvent(eventType) && eventType != "reject"
  {
    if IsAcceptingEvent(eventType) then Accepted
    else if eventType == "reject" then Rejected
    else Pending
  }
}
