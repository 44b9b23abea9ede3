/** Statuses of project operations and the messages broadcast about them. */
module OperationTypes {
  import opened Text

  datatype Status =
    | Queued | Cloning | Scanning | Assessed | AwaitingAiTriage | AwaitingApproval | Applying
    | Completed | SubmittingPr | PrSubmitted | Failed | Expired | Cancelled

  predicate IsTerminalStatus(s: Status) {
    s.Completed? || s.PrSubmitted? || s.Failed? || s.Expired? || s.Cancelled?
  }

  datatype Event =
    | Snapshot | StatusChanged | Progress | Proposals | Findings | AiTriage | ProposalUpdated
    | Result | ApprovalAck | PrCreated | ErrorEvent

  /** A message for subscribers: its event, the status its data carries (if any) and the rest of the
      data. `Close` is the `_close` marker, which has neither an event nor data. */
  datatype Message = Message(event: Event, status: Option<Status>, data: string) | Close

  predicate CarriesTerminal(m: Message) {
    m.Message? && m.status.Some? && IsTerminalStatus(m.status.value)
  }

  /** Results, created pull requests and terminal statuses must not be dropped from queues. */
  predicate IsMustDeliver(m: Message) {
    (m.Message? && (m.event.Result? || m.event.PrCreated?)) || CarriesTerminal(m)
  }

  /** The messages that close a live stream. */
  predicate IsTerminal(m: Message) {
    (m.Message? && m.event.PrCreated?) || CarriesTerminal(m)
  }

  /** The terminal statuses and the messages that must be delivered, written out. */
  lemma MustDeliverIs(m: Message)
    ensures IsMustDeliver(m) <==>
            && m != Close
            && (|| m.event in {Result, PrCreated}
                || m.status in {Some(Completed), Some(PrSubmitted), Some(Failed), Some(Expired), Some(Cancelled)})
    ensures forall s :: IsTerminalStatus(s) <==> s in {Completed, PrSubmitted, Failed, Expired, Cancelled}
  {
  }

  /** Every message that closes the stream must be delivered; of those that must be delivered only a
      result without a terminal status leaves the stream open. */
  lemma TerminalMustDeliver(m: Message)
    ensures IsTerminal(m) ==> IsMustDeliver(m)
    ensures IsMustDeliver(m) && !IsTerminal(m) <==> m.Message? && m.event.Result? && !CarriesTerminal(m)
  {
  }
}
