/**
 * The earlier, flat draft of the server (server_email/server_email.py): a
 * registry of draft users keyed by e-mail address, which delivers a message
 * straight into the receiver's inbox and fails on an unknown receiver.
 */
module DraftServers {
  import opened Messages
  import opened DraftUsers

  /** What sending reports: delivered, or the error raised for an unknown receiver. */
  datatype Outcome = Delivered | ReceiverNotRegistered

  class ServerEmail {
    /** Registered users, by e-mail address. */
    var users: map<string, User>
    /** The registered addresses in registration order (the key order of the registry). */
    var order: seq<string>

    ghost predicate Valid()
      reads this
    {
      (forall e :: e in users <==> e in order) &&
      (forall i, j :: 0 <= i < j < |order| ==> order[i] != order[j]) &&
      (forall e :: e in users ==> users[e].email == e)
    }

    /** A server with no registered user. */
    constructor ()
      ensures Valid()
      ensures users == map[] && ListUsers() == []
    {
      users := map[];
      order := [];
    }

    /**
     * Registers `u` under its address unless that address is taken, in which
     * case the user registered first is kept.
     */
    method RegisterUser(u: User)
      requires Valid()
      modifies this
      ensures Valid()
      ensures u.email in old(users) ==> users == old(users) && ListUsers() == old(ListUsers())
      ensures u.email !in old(users) ==>
                users == old(users)[u.email := u] && ListUsers() == old(ListUsers()) + [u.email]
    {
      if u.email !in users {
        users := users[u.email := u];
        order := order + [u.email];
      }
    }

    /**
     * Sends a message from `sender` to the user registered as `receiverEmail`.
     * Only the receiver is looked up: the sender need not be registered. An
     * unknown receiver is an error and no inbox changes.
     */
    method SendMessage(sender: User, receiverEmail: string, subject: string, body: string, date: Timestamp)
      returns (outcome: Outcome)
      requires Valid()
      modifies users.Values
      ensures outcome == Delivered <==> receiverEmail in users
      ensures receiverEmail in users ==>
                users[receiverEmail].inbox ==
                  old(users[receiverEmail].inbox) + [NewMessage(sender.email, receiverEmail, subject, body, date)]
      ensures forall e :: e in users && e != receiverEmail ==> unchanged(users[e])
    {
      if receiverEmail in users {
        var m := NewMessage(sender.email, receiverEmail, subject, body, date);
        users[receiverEmail].ReceiveMessage(m);
        outcome := Delivered;
      } else {
        outcome := ReceiverNotRegistered;
      }
    }

    /** The registered addresses, each once, in registration order. */
    function ListUsers(): (r: seq<string>)
      reads this
      requires Valid()
      ensures forall e :: e in r <==> e in users
      ensures forall i, j :: 0 <= i < j < |r| ==> r[i] != r[j]
    {
      order
    }
  }
}
