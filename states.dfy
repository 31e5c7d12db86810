/** The negotiation states an agent moves through. */
module States {
  datatype NegotiationState = Rest | Arguing | WaitingAnswerAccept | WaitingForCommit | Finished
}
