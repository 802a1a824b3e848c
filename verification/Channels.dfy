/** One party's end of a message channel. */
module Channels {

  /** A message as the bits of its body. */
  type Message = seq<bool>

  class Channel {
    var sent: seq<Message>   // handed to the peer, oldest first
    var inbox: seq<Message>  // arrived and not yet received, oldest first

    constructor ()
      ensures sent == inbox == []
    {
      sent, inbox := [], [];
    }

    method AsyncSend(m: Message)
      modifies this`sent
      ensures sent == old(sent) + [m]
    {
      sent := sent + [m];
    }

    /** A blocking receive, called when a message is there. */
    method Recv() returns (m: Message)
      requires inbox != []
      modifies this`inbox
      ensures m == old(inbox)[0] && inbox == old(inbox)[1..]
    {
      m := inbox[0];
      inbox := inbox[1..];
    }
  }
}
