/** The messages the controller and a client exchange (`reckon_types.Message`), with opaque payloads. */
module Protocol {

  /** Controller to client. An operation is known by its position in the order the controller sent it. */
  datatype Request = Preload(prereq: bool, op: nat) | Finalise | Start

  /** A result, known by what it is the result of: prerequisite `index` or timed operation `index` of its client. */
  datatype Item = Prereq(index: nat) | Op(index: nat)

  /** Client to controller. */
  datatype Reply<+R> = Ready | Result(result: R) | Finished

  /** A beginning of: Ready, then results, then Finished. */
  predicate Conversation<R>(replies: seq<Reply<R>>) {
    forall i :: 0 <= i < |replies| ==>
      if i == 0 then replies[i].Ready?
      else replies[i].Result? || (replies[i].Finished? && i == |replies| - 1)
  }

  predicate WholeConversation<R>(replies: seq<Reply<R>>) {
    Conversation(replies) && |replies| >= 2 && replies[|replies| - 1].Finished?
  }

  /** The results a sequence of replies carries, in order. */
  function ResultsOf<R>(replies: seq<Reply<R>>): seq<R> {
    if replies == [] then []
    else ResultsOf(replies[..|replies| - 1])
         + (if replies[|replies| - 1].Result? then [replies[|replies| - 1].result] else [])
  }
}
