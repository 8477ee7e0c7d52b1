/** A sequential model of a tokio `mpsc` channel: everything ever sent is kept
    as an append-only trace, and the receiver's position in it says how much has
    been taken. Receiving from an empty channel yields `None`, which is what
    `recv` returns once every sender is gone and the buffer is drained. */
module Channels {
  import opened Basics

  class Channel<T> {
    var sent: seq<T>
    var received: nat

    predicate Valid()
      reads this
    {
      received <= |sent|
    }

    /** The messages sent but not yet received. */
    function Pending(): seq<T>
      reads this
      requires Valid()
    {
      sent[received..]
    }

    constructor ()
      ensures Valid() && sent == [] && received == 0
    {
      sent, received := [], 0;
    }

    method Send(x: T)
      requires Valid()
      modifies this
      ensures Valid()
      ensures sent == old(sent) + [x] && received == old(received)
    {
      sent := sent + [x];
    }

    method Recv() returns (r: Option<T>)
      requires Valid()
      modifies this
      ensures Valid() && sent == old(sent)
      ensures old(received) < |sent| ==> r == Some(sent[old(received)]) && received == old(received) + 1
      ensures old(received) == |sent| ==> r == None && received == old(received)
    {
      if received < |sent| {
        r := Some(sent[received]);
        received := received + 1;
      } else {
        r := None;
      }
    }
  }
}
