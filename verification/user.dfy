/**
 * A user's mailbox (models/user.py): a name and a folder tree made of a Root
 * folder holding an Inbox and a Sent folder.
 */
module Users {
  import opened Wrappers
  import opened Messages
  import opened Forests
  import opened Folders

  class User {
    /** The user's name; it never changes. */
    const name: string
    /** The folders of this mailbox. */
    const folders: FolderTable
    const root: FolderId
    const inbox: FolderId
    const sent: FolderId

    ghost predicate Valid()
      reads folders
    {
      folders.Valid() &&
      root < |folders.names| && inbox < |folders.names| && sent < |folders.names| &&
      root != inbox && root != sent && inbox != sent
    }

    /** The folder tree as the constructor builds it: Root holding Inbox then Sent, all empty. */
    ghost predicate IsNew()
      reads folders
    {
      Valid() &&
      folders.names == ["Root", "Inbox", "Sent"] &&
      root == 0 && inbox == 1 && sent == 2 &&
      folders.subfolders[root] == [inbox, sent] &&
      folders.subfolders[inbox] == [] && folders.subfolders[sent] == [] &&
      folders.parent[root] == None &&
      folders.parent[inbox] == Some(root) && folders.parent[sent] == Some(root) &&
      folders.messages[root] == [] && folders.messages[inbox] == [] && folders.messages[sent] == []
    }

    constructor (name: string)
      ensures this.name == name
      ensures IsNew() && fresh(folders)
    {
      this.name := name;
      var t := new FolderTable();
      var r := t.NewFolder("Root", None);
      var i := t.NewFolder("Inbox", None);
      var s := t.NewFolder("Sent", None);
      t.Ranking();
      LeafPreorder(t.subfolders, t.rank, i);
      t.AddSubfolder(r, i);
      t.Ranking();
      LeafPreorder(t.subfolders, t.rank, s);
      t.AddSubfolder(r, s);
      folders, root, inbox, sent := t, r, i, s;
    }

    /** The messages of the Inbox, in arrival order. */
    function ListMessages(): (r: seq<Message>)
      reads folders
      requires Valid()
      ensures r == folders.messages[inbox]
    {
      folders.messages[inbox]
    }

    /** The messages of the Sent folder, in sending order. */
    function SentMessages(): (r: seq<Message>)
      reads folders
      requires Valid()
      ensures r == folders.messages[sent]
    {
      folders.messages[sent]
    }

    /** Files `m` at the end of the Inbox; no other folder changes. */
    method ReceiveMessage(m: Message)
      requires Valid()
      modifies folders`messages
      ensures Valid()
      ensures folders.messages == old(folders.messages)[inbox := old(ListMessages()) + [m]]
      ensures ListMessages() == old(ListMessages()) + [m]
    {
      folders.AddMessage(inbox, m);
    }
  
    /** Files `m` at the end of the Sent folder; no other folder changes. */
    method FileSent(m: Message)
      requires Valid()
      modifies folders`messages
      ensures Valid()
      ensures folders.messages == old(folders.messages)[sent := old(SentMessages()) + [m]]
    {
      folders.AddMessage(sent, m);
    }
  }
}
