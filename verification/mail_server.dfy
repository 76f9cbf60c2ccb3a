/**
 * The mail server (models/mail_server.py): a registry from user names to
 * mailboxes, which files delivered messages in the receiver's Inbox.
 *
 * Sending (models/user.py, `send_message`) calls into the server, and the
 * server holds users, so the two modules would import each other; the send
 * operation therefore lives here, beside the server it calls.
 */
module MailServers {
  import opened Messages
  import opened Folders
  import opened Users

  class MailServer {
    /** Registered users, by name. */
    var users: map<string, User>
    /** The folder tables of the registered users, each with the name it is registered under. */
    ghost var holder: map<FolderTable, string>

    /** The objects the server's users keep their folders in. */
    ghost function Repr(): set<FolderTable>
      reads this
    {
      holder.Keys
    }

    ghost predicate Valid()
      reads this, Repr()
    {
      (forall n :: n in users ==>
         users[n].folders in holder && holder[users[n].folders] == n &&
         users[n].name == n && users[n].Valid())
    }

    /** A server with no registered user. */
    constructor ()
      ensures Valid()
      ensures users == map[] && Repr() == {}
    {
      users := map[];
      holder := map[];
    }

    /**
     * Registers a new mailbox under `name` unless the name is taken; an
     * existing registration, its folders and its messages are kept as they are.
     */
    method RegisterUser(name: string)
      requires Valid()
      modifies this
      ensures Valid() && fresh(Repr() - old(Repr()))
      ensures name in old(users) ==> users == old(users) && Repr() == old(Repr())
      ensures name !in old(users) ==>
                name in users && users == old(users)[name := users[name]] &&
                fresh(users[name].folders) && users[name].IsNew()
    {
      if name !in users {
        var u := new User(name);
        users := users[name := u];
        holder := holder[u.folders := name];
      }
    }

    /** The folder table of the user registered as `n`, if there is one. */
    ghost function MailboxOf(n: string): set<FolderTable>
      reads this
    {
      if n in users then {users[n].folders} else {}
    }

    /**
     * Appends `m` to the Inbox of the user registered as `receiver`; an
     * unknown receiver leaves every mailbox as it was.
     */
    method DeliverMessage(receiver: string, m: Message)
      requires Valid()
      modifies MailboxOf(receiver)`messages
      ensures Valid()
      ensures receiver in users ==>
                users[receiver].folders.messages ==
                  old(users[receiver].folders.messages)[users[receiver].inbox :=
                    old(users[receiver].ListMessages()) + [m]]
      ensures forall n :: n in users && n != receiver ==> unchanged(users[n].folders)
    {
      if receiver in users {
        users[receiver].ReceiveMessage(m);
      }
    }
  }

  /**
   * The user `u` sends a message to `receiver` through `server`: the message,
   * stamped `date`, is appended to `u`'s Sent folder and then delivered.
   * Apart from `u` itself, no registered user may share `u`'s folders, as
   * every mailbox owns its folders.
   */
  method SendMessage(u: User, server: MailServer, receiver: string, subject: string, body: string, date: Timestamp)
    requires u.Valid() && server.Valid()
    requires forall n :: n in server.users && server.users[n] != u ==> server.users[n].folders != u.folders
    modifies u.folders`messages, server.MailboxOf(receiver)`messages
    ensures u.Valid() && server.Valid()
    ensures u.SentMessages() == old(u.SentMessages()) + [NewMessage(u.name, receiver, subject, body, date)]
    ensures !(receiver in server.users && server.users[receiver] == u) ==>
              u.folders.messages ==
                old(u.folders.messages)[u.sent := old(u.SentMessages()) + [NewMessage(u.name, receiver, subject, body, date)]]
    ensures receiver in server.users ==>
              server.users[receiver].ListMessages() ==
                old(server.users[receiver].ListMessages()) + [NewMessage(u.name, receiver, subject, body, date)]
    ensures receiver in server.users && server.users[receiver] == u ==>
              u.folders.messages ==
                old(u.folders.messages)[u.sent := old(u.SentMessages()) + [NewMessage(u.name, receiver, subject, body, date)]]
                                       [u.inbox := old(u.ListMessages()) + [NewMessage(u.name, receiver, subject, body, date)]]
    ensures receiver in server.users && server.users[receiver] != u ==>
              server.users[receiver].folders.messages ==
                old(server.users[receiver].folders.messages)[server.users[receiver].inbox :=
                  old(server.users[receiver].ListMessages()) + [NewMessage(u.name, receiver, subject, body, date)]]
    ensures forall n :: n in server.users && n != receiver && server.users[n] != u ==>
              unchanged(server.users[n].folders)
  {
    ghost var inbox := if receiver in server.users then server.users[receiver].ListMessages() else [];
    var m := NewMessage(u.name, receiver, subject, body, date);
    u.FileSent(m);
    ghost var own := receiver in server.users && server.users[receiver] == u;
    assert !own ==> u.folders !in server.MailboxOf(receiver);
    assert receiver in server.users ==> server.users[receiver].ListMessages() == inbox;
    server.DeliverMessage(receiver, m);
    if own {
      assert server.users[receiver].Valid();
    }
  }

  /**
   * On a fresh server with `a` and `b` registered, `a` sends `subject` to `b`:
   * `b`'s Inbox then holds exactly that message and `a`'s Sent holds it too.
   */
  method SendBetweenUsers(a: string, b: string, subject: string, body: string, date: Timestamp)
    returns (inbox: seq<Message>, sent: seq<Message>)
    ensures |inbox| == 1 && inbox[0].subject == subject && inbox[0].sender == a
    ensures sent == inbox
  {
    var server := new MailServer();
    server.RegisterUser(a);
    server.RegisterUser(b);
    var alice := server.users[a];
    SendMessage(alice, server, b, subject, body, date);
    inbox := server.users[b].ListMessages();
    sent := alice.SentMessages();
  }
}
