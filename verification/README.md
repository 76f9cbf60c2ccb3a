# email_client — a verified model of the mail-organisation core

This project models the in-memory e-mail system of `email_client`. It covers three parts:

- **Folder tree.** Each folder has an ordered list of messages and an ordered list of subfolders. There are two recursive pre-order searches: by subject, where case is ignored and a substring is enough, and by sender, where the match must be exact. `move_message` takes the first message, in pre-order, whose subject is exactly the argument and appends it to a target folder.
- **Mailboxes and server.** Each user's mailbox is a Root folder holding Inbox and Sent. A mail server keeps a registry of users by name and delivers each message to its receiver's Inbox.
- **Draft copies.** An earlier flat draft has one inbox per user, flat folders, and an e-mail-keyed server that reports an error when the receiver is unknown.

Modules and files:

| file | module | models |
|---|---|---|
| `wrappers.dfy` | `Wrappers` | the `Option` type |
| `text.dfy` | `Text` | lower-casing and substring containment, used by the subject search |
| `message.dfy` | `Messages` | the immutable message record and its text form |
| `forest.dfy` | `Forests` | the specification on values: pre-order walks of the subfolder lists, gathering and filtering messages, the first subject match, removing a message and moving it |
| `folder.dfy` | `Folders` | the folder tree as a table of folders (`FolderTable`) with its in-place operations |
| `user.dfy` | `Users` | a user's mailbox |
| `mail_server.dfy` | `MailServers` | the server registry, delivery and sending |
| `draft_user.dfy`, `draft_folder.dfy`, `draft_server.dfy` | `DraftUsers`, `DraftFolders`, `DraftServers` | the flat draft |

**The folder table.** In the original, each folder is an object. Here, all the folders of one mailbox are numbered entries of one `FolderTable`. Per folder, the table holds:

- its name;
- its parent back-reference;
- its subfolder list, as folder numbers;
- its message list.

A folder operation that changes a folder in place changes that folder's entry. The table also has three ghost fields:

- `owner`: which list holds each folder;
- `rank`: a number that decreases from every folder to each of its subfolders;
- `slot`: each held folder's position in that list.

The table is valid when every folder's entry agrees with these (`Linked`): each subfolder it holds exists, ranks below it, names it as owner and records its position. Together they guarantee that the subfolder lists form a forest. The searches and `MoveMessage` recurse on the folder rank.

**The specification on values.** The method results are stated by functions on values:

- `Subtree(f)`: the folders of the subtree of `f`, in pre-order.
- `AllMessages(f)`: their messages, concatenated in that order.
- `FindFirst(f, s)`: where the first message with subject `s` sits.

The lemmas in `Forests` and `Folders` prove what these functions promise: order, membership, conservation of messages, and where the first match lies.

**Parameters instead of the environment.** The message timestamp is a parameter (`Timestamp`). The original reads it from the clock. The text form takes the formatted date as a string.

## Model

| member | source | states |
|---|---|---|
| Text.Lower | models/folder.py:51 | lower-casing keeps the length and maps each character by the ASCII letter mapping |
| Text.Contains | models/folder.py:51 | the substring test holds exactly when the text occurs at some position of the subject |
| Text.LowerIdempotent | models/folder.py:51 | lower-casing an already lower-cased string changes nothing |
| Text.ContainsEmpty | models/folder.py:51 | the empty text occurs in every subject |
| Messages.NewMessage | models/message.py:11-17 | every accessor returns its constructor argument; `urgent` is false when not supplied |
| Messages.Render | models/message.py:44-50 | the text starts with "Asunto: " followed by the subject, and " (URGENTE)" follows the subject exactly when the message is urgent |
| Messages.Subjects | user/user.py:20-21 | one subject per message, in the same order |
| Forests.Preorder | models/folder.py:50-54 | the walk of a subtree starts at its root and visits only folders of the table whose rank is not above the root's |
| Forests.PreorderFrom | models/folder.py:52-53 | the walks of the subfolders, taken in list order, visit only folders ranked strictly below the parent |
| Forests.Filter | models/folder.py:51 | the selected messages are exactly those of the list that pass the test, and there are no more of them than in the list |
| Forests.FilterAppend | models/folder.py:51-53 | selecting over two lists joined is selecting over each and joining the results, so the folder's own matches come before its subfolders' |
| Forests.FilterKeepsAll | models/folder.py:51 | a test that every message passes keeps the whole list, in order |
| Forests.GatherAppend | models/folder.py:52-53 | the messages of two runs of folders are those of the first run followed by those of the second |
| Forests.GatherLength | models/folder.py:50-54 | the messages gathered over a run of folders are as many as those folders hold |
| Forests.FirstIn | models/folder.py:63-64 | the position found holds the subject and no earlier position does; no position is found only when no message has the subject |
| Forests.FirstInAppend | models/folder.py:63-64 | in two lists joined, the first match is the first list's match if it has one, and otherwise the second list's match shifted past the first list |
| Forests.FirstMatch | models/folder.py:62-71 | a match found lies in one of the visited folders, at a valid position, and has the subject |
| Forests.FirstMatchAppend | models/folder.py:68-70 | a later run of folders is searched only when the earlier run holds no match |
| Forests.FirstMatchIsFirst | models/folder.py:62-71 | the match found folder by folder is the first match in the pre-order list of all messages, and there is none exactly when that list has none |
| Forests.RemoveFirst | models/folder.py:65 | removing a message that is present shortens the list by one |
| Forests.RemoveFirstMatch | models/folder.py:63-65 | removing the found message removes exactly the element at the found position |
| Forests.RemoveAtMultiset | models/folder.py:65 | the removed message and the remaining list make up the original list |
| Forests.GatherUntouched | models/folder.py:46-47 | changing a folder outside a run of folders does not change that run's messages |
| Forests.GatherUpdate | models/folder.py:65-66 | replacing one folder's list in a run without repeats swaps that list's messages in the run's multiset |
| Forests.LeafPreorder | models/folder.py:17 | a folder without subfolders is its own whole subtree |
| Forests.InFrom | models/folder.py:52-53 | a folder is in the walks of a suffix of the subfolder list exactly when it is in the walk of one of those subfolders |
| Forests.PreorderTransitive | models/folder.py:42-44 | a subtree contains the subtrees of all its folders |
| Forests.HolderInPreorder | models/folder.py:42-44 | every folder below the root of a subtree is held by a folder of that subtree |
| Forests.Nested | models/folder.py:42-44 | in a forest, two subtrees that share a folder are nested |
| Forests.SiblingsDisjoint | models/folder.py:52-53 | in a forest, the subtrees of two different subfolders of one folder share no folder |
| Forests.NoDupAppend | models/folder.py:52-53 | two runs without repeats and with no folder in common join into a run without repeats |
| Forests.PreorderNoDup | models/folder.py:50-54 | the pre-order walk of a forest visits no folder twice |
| Forests.PreorderFromNoDup | models/folder.py:52-53 | the walks of a folder's subfolders visit no folder twice |
| Forests.TakeOut | models/folder.py:65 | taking a message out of a folder of the subtree removes exactly that message from the subtree's messages |
| Forests.PutIn | models/folder.py:66 | appending a message to a folder of the subtree adds exactly that message to the subtree's messages |
| Forests.MoveConserves | models/folder.py:62-71 | a move inside a subtree keeps the subtree's messages as a multiset; a move to a folder outside loses exactly the moved message |
| Folders.BySubjectMembers | models/folder.py:51 | the subject search keeps exactly the messages whose lower-cased subject contains the lower-cased text |
| Folders.BySenderMembers | models/folder.py:57 | the sender search keeps exactly the messages whose sender equals the argument, case included |
| Folders.BySubjectAppend | models/folder.py:51-53 | the subject search over a folder's messages followed by its subfolders' is the search over each, joined in that order |
| Folders.BySenderAppend | models/folder.py:57-59 | the sender search over a folder's messages followed by its subfolders' is the search over each, joined in that order |
| Folders.EmptyTextFindsAll | models/folder.py:51 | searching for the empty text keeps every message, in order |
| Folders.MatchIgnoresCase | models/folder.py:51 | the subject test gives the same answer for the text and for its lower-cased form, and likewise for the subject |
| Folders.FolderTable.constructor | models/folder.py:14-18 | a new table holds no folder |
| Folders.FolderTable.Ranking | models/folder.py:42-44 | in a valid table every subfolder ranks strictly below the folder holding it, so every walk down the tree ends |
| Folders.FolderTable.Forest | models/folder.py:42-44 | the subfolder lists of a valid table form a forest: acyclic, and no folder is listed twice |
| Folders.FolderTable.NewFolder | models/folder.py:14-18 | a new folder has the given name and parent reference, no subfolders and no messages, and is held by no folder |
| Folders.FolderTable.SetParent | models/folder.py:29-31 | only the parent reference of the folder changes |
| Folders.FolderTable.AddSubfolder | models/folder.py:42-44 | the child is appended at the end of the parent's subfolder list and its parent becomes that folder; names and messages are unchanged |
| Folders.FolderTable.AddMessage | models/folder.py:46-47 | exactly one message is appended at the end of the folder's list, and every subtree containing the folder gains exactly that message |
| Folders.FolderTable.EmptySearchFindsAll | models/folder.py:50-54 | a subject search for the empty text returns every message of the subtree, as many as the subtree holds |
| Folders.FolderTable.SearchBySubject | models/folder.py:50-54 | the result is the subject search applied to the subtree's messages in pre-order; the tree is not changed |
| Folders.FolderTable.SearchBySender | models/folder.py:56-60 | the result is the sender search applied to the subtree's messages in pre-order; the tree is not changed |
| Folders.FolderTable.MoveMessage | models/folder.py:62-71 | the result is true exactly when the subtree has a message with the subject. With no match, nothing changes. Otherwise the first pre-order match leaves its folder and is appended to the target, and no other message list changes |
| Users.User.constructor | models/user.py:15-22 | the name is kept; Root holds exactly Inbox then Sent, both with parent Root, and all three are empty |
| Users.User.ListMessages | models/user.py:55-57 | the Inbox messages, in arrival order |
| Users.User.SentMessages | models/user.py:37-39 | the Sent messages, in sending order |
| Users.User.ReceiveMessage | models/user.py:51-53 | the message is appended to the Inbox and no other folder changes |
| Users.User.FileSent | models/user.py:48 | the message is appended to the Sent folder and no other folder changes |
| MailServers.MailServer.constructor | models/mail_server.py:15-16 | a new server has no registered user |
| MailServers.MailServer.RegisterUser | models/mail_server.py:19-26 | an absent name gains exactly one entry, a fresh mailbox with that name; a present name leaves the registry and every mailbox as they were |
| MailServers.MailServer.DeliverMessage | models/mail_server.py:28-36 | a registered receiver gets the message appended to its Inbox and no other message list of that mailbox changes; its folder names, parents and subfolder lists stay as they were; every other mailbox is unchanged, so an unknown receiver changes nothing |
| MailServers.SendMessage | models/user.py:42-49 | the sender's Sent gains one message carrying the sender's name, the receiver, subject and body; a registered receiver's Inbox gains that same message; no other message list of either mailbox changes (a self-send changes exactly the sender's Sent and Inbox); no folder structure and no other mailbox changes |
| MailServers.SendBetweenUsers | models/user.py:47-49 | on a fresh server with two registered users, one sending to the other leaves exactly that message in the receiver's Inbox and in the sender's Sent |
| DraftUsers.User.constructor | user/user.py:3-6 | name and address are kept; the inbox is empty |
| DraftUsers.User.ReceiveMessage | user/user.py:17-18 | exactly one message is appended at the end of the inbox, and its subject at the end of the listing |
| DraftUsers.User.ListMessages | user/user.py:20-21 | one subject per received message, in arrival order |
| DraftFolders.Folder.constructor | folder/folder.py:3-5 | the name is kept; the folder is empty |
| DraftFolders.Folder.AddMessage | folder/folder.py:12-13 | exactly one message is appended at the end, and its subject at the end of the listing |
| DraftFolders.Folder.GetMessages | folder/folder.py:15-16 | one subject per added message, in insertion order |
| DraftServers.ServerEmail.constructor | server_email/server_email.py:7-8 | a new server has no registered address |
| DraftServers.ServerEmail.RegisterUser | server_email/server_email.py:11-13 | an absent address is added with its user at the end of the listing; a present one keeps the user registered first |
| DraftServers.ServerEmail.SendMessage | server_email/server_email.py:15-20 | delivery succeeds exactly when the receiver is registered, and the registered receiver gets a message from the sender's address. An unknown receiver is an error and no inbox changes. The sender need not be registered |
| DraftServers.ServerEmail.ListUsers | server_email/server_email.py:22-23 | the registered addresses, each exactly once |

## Left out

- Server-to-server connections, routing, keyword filters, filter folders, urgent queues, `find_folder` and named servers. No source file implements them.
- The clock. The message date is a parameter. The date formatting of the text form is also left out: `Messages.Render` takes the formatted date as a string.
- Console output. This covers the warnings printed on a duplicate registration or an unknown receiver (their state effect, "no change", is modelled) and the tree printers `show_tree` and `show_structure`.
- `interfaces/mail_operations.py` is not part of this model: it declares operations and has no behaviour.
- `main.py` is not part of this model: it only scripts a demonstration.
- `message/message.py` is covered by `Messages.Message`. It is the draft's duplicate record, which names the subject field `subjet`.
- Python's `str.lower` maps all of Unicode. `Text.Lower` maps only the ASCII letters A-Z.
- Folder objects shared between trees or between mailboxes are not modelled. Each mailbox owns its own `FolderTable`, and a folder is a number within it.
- Folders.FolderTable.AddSubfolder: requires that the child is held by no folder and that the parent is not inside the child's subtree. The original accepts a second holder or a cycle, after which the searches would visit a folder twice, or, on a cycle, recurse until Python's recursion limit raises `RecursionError`.
- Folders.FolderTable.MoveMessage: its contract states the new message lists. Conservation of the subtree's messages is the separate value lemma `Forests.MoveConserves`, applied to the old message lists and the first match.
- MailServers.SendMessage: requires that no other registered user shares the sender's folders. In the original every mailbox creates its own folders, so this always holds.
- MailServers.SendMessage: `send_message` in models/user.py is a `User` method. Here it sits beside the server, because the two modules would otherwise import each other.
- Users.User.ListMessages: returns the Inbox's messages as a value. `list_messages` in models/user.py:55-57 returns the Inbox's own list object, so a caller that changes that list changes the Inbox; that aliasing is not modelled.
- Users.User.SentMessages: returns the Sent folder's messages as a value. The `sent` property in models/user.py:37-39 returns the folder object itself, through which a caller could change it; that aliasing is not modelled.
- The `users` property of the mail server is the field `MailServers.MailServer.users`, read directly.
