/**
 * The earlier, flat draft of a user (user/user.py): a name, an e-mail address
 * and one inbox list.
 */
module DraftUsers {
  import opened Messages

  class User {
    const name: string
    const email: string
    /** Received messages, in arrival order. */
    var inbox: seq<Message>

    /** A user with the given name and address and an empty inbox. */
    constructor (name: string, email: string)
      ensures this.name == name && this.email == email
      ensures inbox == []
    {
      this.name := name;
      this.email := email;
      inbox := [];
    }

    /** Appends `m` at the end of the inbox. */
    method ReceiveMessage(m: Message)
      modifies this`inbox
      ensures inbox == old(inbox) + [m]
      ensures ListMessages() == old(ListMessages()) + [m.subject]
    {
      inbox := inbox + [m];
    }

    /** The subjects of the inbox messages, one per message, in arrival order. */
    function ListMessages(): (r: seq<string>)
      reads this
      ensures |r| == |inbox|
      ensures forall i :: 0 <= i < |inbox| ==> r[i] == inbox[i].subject
    {
      Subjects(inbox)
    }
  }
}
