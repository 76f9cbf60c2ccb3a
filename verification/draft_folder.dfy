/**
 * The earlier, flat draft of a folder (folder/folder.py): a name and one list
 * of messages, without subfolders.
 */
module DraftFolders {
  import opened Messages

  class Folder {
    const name: string
    /** Added messages, in insertion order. */
    var messages: seq<Message>

    /** An empty folder called `name`. */
    constructor (name: string)
      ensures this.name == name && messages == []
    {
      this.name := name;
      messages := [];
    }

    /** Appends `m` at the end of the folder. */
    method AddMessage(m: Message)
      modifies this`messages
      ensures messages == old(messages) + [m]
      ensures GetMessages() == old(GetMessages()) + [m.subject]
    {
      messages := messages + [m];
    }

    /** The subjects of the folder's messages, one per message, in insertion order. */
    function GetMessages(): (r: seq<string>)
      reads this
      ensures |r| == |messages|
      ensures forall i :: 0 <= i < |messages| ==> r[i] == messages[i].subject
    {
      Subjects(messages)
    }
  }
}
