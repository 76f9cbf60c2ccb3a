/**
 * The folder tree of a mailbox (models/folder.py).
 *
 * Every folder object of the original is a numbered entry of one table: the
 * fields `names`, `parent`, `subfolders` and `messages` hold, per folder, its
 * name, its parent back-reference, its ordered list of subfolders and its
 * ordered list of messages. A folder reference is its number. Folder
 * operations that change a folder in place change its entry of the table.
 */
module Folders {
  import opened Wrappers
  import opened Text
  import opened Messages
  import opened Forests

  /** The subject-search test: `text` occurs in the subject, ignoring letter case. */
  predicate SubjectMatches(m: Message, text: string)
  {
    Contains(Lower(m.subject), Lower(text))
  }

  /** The sender-search test: the sender is exactly `sender`, letter case included. */
  predicate SenderMatches(m: Message, sender: string)
  {
    m.sender == sender
  }

  /** The messages of `ms` that match a subject search for `text`, in order. */
  function BySubject(ms: seq<Message>, text: string): seq<Message>
  {
    Filter(ms, m => SubjectMatches(m, text))
  }

  /** The messages of `ms` sent by `sender`, in order. */
  function BySender(ms: seq<Message>, sender: string): seq<Message>
  {
    Filter(ms, m => SenderMatches(m, sender))
  }

  /** A subject search keeps exactly the messages whose subject contains the text, ignoring case. */
  lemma BySubjectMembers(ms: seq<Message>, text: string, m: Message)
    ensures m in BySubject(ms, text) <==> m in ms && Contains(Lower(m.subject), Lower(text))
  {
  }

  /** A sender search keeps exactly the messages from that sender. */
  lemma BySenderMembers(ms: seq<Message>, sender: string, m: Message)
    ensures m in BySender(ms, sender) <==> m in ms && m.sender == sender
  {
  }

  /** A subject search over two lists joined is the search over each, joined: order is kept. */
  lemma BySubjectAppend(a: seq<Message>, b: seq<Message>, text: string)
    ensures BySubject(a + b, text) == BySubject(a, text) + BySubject(b, text)
  {
    FilterAppend(a, b, m => SubjectMatches(m, text));
  }

  /** A sender search over two lists joined is the search over each, joined: order is kept. */
  lemma BySenderAppend(a: seq<Message>, b: seq<Message>, sender: string)
    ensures BySender(a + b, sender) == BySender(a, sender) + BySender(b, sender)
  {
    FilterAppend(a, b, m => SenderMatches(m, sender));
  }

  /** Searching for the empty subject text returns every message, in order. */
  lemma EmptyTextFindsAll(ms: seq<Message>)
    ensures BySubject(ms, "") == ms
  {
    forall i | 0 <= i < |ms|
      ensures SubjectMatches(ms[i], "")
    {
      ContainsEmpty(Lower(ms[i].subject));
    }
    FilterKeepsAll(ms, m => SubjectMatches(m, ""));
  }

  /** Neither the case of the search text nor that of the subject matters. */
  lemma MatchIgnoresCase(m: Message, text: string)
    ensures SubjectMatches(m, text) <==> SubjectMatches(m, Lower(text))
    ensures SubjectMatches(m, text) <==> SubjectMatches(m.(subject := Lower(m.subject)), text)
  {
    LowerIdempotent(text);
    LowerIdempotent(m.subject);
  }

  class FolderTable {
    /** Name of each folder. */
    var names: seq<string>
    /** Parent back-reference of each folder, as last set. */
    var parent: seq<Option<FolderId>>
    /** Ordered subfolder list of each folder. */
    var subfolders: seq<seq<FolderId>>
    /** Ordered message list of each folder. */
    var messages: seq<seq<Message>>

    /** The folder whose subfolder list holds each folder, if any. */
    ghost var owner: seq<Option<FolderId>>
    /** Decreases from every folder to its subfolders: the lists form no cycle. */
    ghost var rank: seq<nat>
    /** The position of each held folder in its holder's subfolder list. */
    ghost var slot: seq<nat>

    /**
     * The parent reference of `f`, if any, names a folder of the table, and
     * every subfolder of `f` is a folder of the table ranked below `f`, held
     * by `f` at its own position.
     */
    ghost predicate Linked(f: FolderId)
      reads this`names, this`parent, this`subfolders, this`owner, this`rank, this`slot
      requires f < |names| && |parent| == |names| && |subfolders| == |names|
      requires |owner| == |names| && |rank| == |names| && |slot| == |names|
    {
      (parent[f].Some? ==> parent[f].value < |names|) &&
      forall k :: 0 <= k < |subfolders[f]| ==>
        subfolders[f][k] < |names| && rank[subfolders[f][k]] < rank[f] &&
        owner[subfolders[f][k]] == Some(f) && slot[subfolders[f][k]] == k
    }

    /** The folders form a forest; the message lists play no part in it. */
    ghost predicate Shape()
      reads this`names, this`parent, this`subfolders, this`owner, this`rank, this`slot
    {
      |parent| == |names| && |subfolders| == |names| &&
      |owner| == |names| && |rank| == |names| && |slot| == |names| &&
      (forall f :: 0 <= f < |names| ==> Linked(f))
    }

    ghost predicate Valid()
      reads this
    {
      Shape() && |messages| == |names|
    }

    /** Rank decreases from every folder of a valid table to its subfolders. */
    lemma Ranking()
      requires Valid()
      ensures Ranked(subfolders, rank)
    {
      forall f, k | 0 <= f < |subfolders| && 0 <= k < |subfolders[f]|
        ensures subfolders[f][k] < |subfolders| && rank[subfolders[f][k]] < rank[f]
      {
        assert Linked(f);
      }
    }

    /** A valid table's subfolder lists form a forest. */
    lemma Forest()
      requires Valid()
      ensures IsForest(subfolders, rank)
    {
      Ranking();
      forall f, k, g, j |
        0 <= f < |subfolders| && 0 <= k < |subfolders[f]| && 0 <= g < |subfolders| &&
        0 <= j < |subfolders[g]| && subfolders[f][k] == subfolders[g][j]
        ensures f == g && k == j
      {
        assert Linked(f) && Linked(g);
      }
    }

    /** The folders of the subtree of `f`, in the depth-first pre-order the searches use. */
    ghost function Subtree(f: FolderId): seq<FolderId>
      reads this
      requires Valid() && f < |names|
    {
      Ranking();
      Preorder(subfolders, rank, f)
    }

    /** The messages of the subtree of `f`, folder by folder in pre-order. */
    ghost function AllMessages(f: FolderId): seq<Message>
      reads this
      requires Valid() && f < |names|
    {
      Gather(messages, Subtree(f))
    }

    /** The folder and position of the first message, in pre-order, whose subject is exactly `s`. */
    ghost function FindFirst(f: FolderId, s: string): Option<(FolderId, nat)>
      reads this
      requires Valid() && f < |names|
    {
      FirstMatch(messages, Subtree(f), s)
    }

    /** An empty table: no folder exists yet. */
    constructor ()
      ensures Valid()
      ensures names == [] && parent == [] && subfolders == [] && messages == []
    {
      names, parent, subfolders, messages := [], [], [], [];
      owner, rank, slot := [], [], [];
    }

    /** Creates a folder with no subfolders and no messages, whose parent reference is `parentRef`. */
    method NewFolder(name: string, parentRef: Option<FolderId>) returns (f: FolderId)
      requires Valid()
      requires parentRef.Some? ==> parentRef.value < |names|
      modifies this
      ensures Valid()
      ensures f == old(|names|)
      ensures names == old(names) + [name] && parent == old(parent) + [parentRef]
      ensures subfolders == old(subfolders) + [[]] && messages == old(messages) + [[]]
      ensures owner == old(owner) + [None]
    {
      f := |names|;
      names := names + [name];
      parent := parent + [parentRef];
      subfolders := subfolders + [[]];
      messages := messages + [[]];
      owner := owner + [None];
      rank := rank + [0];
      slot := slot + [0];
      forall g | 0 <= g < |subfolders|
        ensures Linked(g)
      {
        if g < f {
          assert old(Linked(g));
        }
      }
    }

    /** Sets the parent reference of `f`; nothing else changes. */
    method SetParent(f: FolderId, p: FolderId)
      requires Valid() && f < |names| && p < |names|
      modifies this`parent
      ensures Valid()
      ensures parent == old(parent)[f := Some(p)]
    {
      parent := parent[f := Some(p)];
    }

    /**
     * Attaches `c` as the last subfolder of `p` and makes `p` its parent.
     * `c` must not yet be a subfolder of any folder, and `p` must not lie in
     * the subtree of `c`, so that the folders stay a tree.
     */
    method AddSubfolder(p: FolderId, c: FolderId)
      requires Valid() && p < |names| && c < |names|
      requires owner[c].None?
      requires p !in Subtree(c)
      modifies this
      ensures Valid()
      ensures subfolders == old(subfolders)[p := old(subfolders[p]) + [c]]
      ensures parent == old(parent)[c := Some(p)]
      ensures names == old(names) && messages == old(messages)
      ensures owner == old(owner)[c := Some(p)]
    {
      Ranking();
      ghost var kids, r, sub := subfolders, rank, Subtree(c);
      ghost var bump := rank[c] + 1;
      parent := parent[c := Some(p)];
      subfolders := subfolders[p := subfolders[p] + [c]];
      owner := owner[c := Some(p)];
      slot := slot[c := |kids[p]|];
      rank := seq(|r|, x requires 0 <= x < |r| => if x in sub then r[x] else r[x] + bump);

      forall f | 0 <= f < |subfolders|
        ensures Linked(f)
      {
        assert old(Linked(f));
        forall k | 0 <= k < |subfolders[f]|
          ensures rank[subfolders[f][k]] < rank[f]
        {
          if f != p || k < |kids[p]| {
            var y := kids[f][k];
            assert subfolders[f][k] == y;
            if f in sub {
              InFrom(kids, r, f, 0, y);
              PreorderTransitive(kids, r, f, c, y);
            }
          }
        }
      }
    }

    /** Appends `m` to the messages of folder `f`; nothing else changes. */
    method AddMessage(f: FolderId, m: Message)
      requires Valid() && f < |names|
      modifies this`messages
      ensures Valid()
      ensures messages == old(messages)[f := old(messages[f]) + [m]]
      ensures forall r: FolderId :: r < |names| && f in Subtree(r) ==>
                multiset(AllMessages(r)) == multiset(old(AllMessages(r))) + multiset{m}
    {
      messages := messages[f := messages[f] + [m]];
      forall r: FolderId | r < |names| && f in Subtree(r)
        ensures multiset(AllMessages(r)) == multiset(old(AllMessages(r))) + multiset{m}
      {
        Forest();
        PreorderNoDup(subfolders, rank, r);
        PutIn(old(messages), Subtree(r), f, m);
      }
    }

    /** Searching the subtree of `f` for the empty text finds all of its messages, as many as it holds. */
    lemma EmptySearchFindsAll(f: FolderId)
      requires Valid() && f < |names|
      ensures BySubject(AllMessages(f), "") == AllMessages(f)
      ensures |BySubject(AllMessages(f), "")| == TotalCount(messages, Subtree(f))
    {
      EmptyTextFindsAll(AllMessages(f));
      GatherLength(messages, Subtree(f));
    }

    /**
     * The messages of the subtree of `f`, in pre-order, whose subject contains
     * `text` when both are lower-cased.
     */
    method SearchBySubject(f: FolderId, text: string) returns (found: seq<Message>)
      requires Valid() && f < |names|
      ensures found == BySubject(AllMessages(f), text)
      decreases rank[f]
    {
      Ranking();
      found := BySubject(messages[f], text);
      var k := 0;
      assert Subtree(f) == [f] + PreorderFrom(subfolders, rank, f, 0);
      GatherAppend(messages, [f], PreorderFrom(subfolders, rank, f, 0));
      BySubjectAppend(messages[f], Gather(messages, PreorderFrom(subfolders, rank, f, 0)), text);
      while k < |subfolders[f]|
        invariant k <= |subfolders[f]|
        invariant found + BySubject(Gather(messages, PreorderFrom(subfolders, rank, f, k)), text)
                  == BySubject(AllMessages(f), text)
      {
        var c := subfolders[f][k];
        var sub := SearchBySubject(c, text);
        ghost var here, rest := Gather(messages, Preorder(subfolders, rank, c)),
                               Gather(messages, PreorderFrom(subfolders, rank, f, k + 1));
        GatherAppend(messages, Preorder(subfolders, rank, c), PreorderFrom(subfolders, rank, f, k + 1));
        assert Gather(messages, PreorderFrom(subfolders, rank, f, k)) == here + rest;
        BySubjectAppend(here, rest, text);
        assert found + sub + BySubject(rest, text) == found + BySubject(here + rest, text);
        found := found + sub;
        k := k + 1;
      }
    }

    /** The messages of the subtree of `f`, in pre-order, sent by exactly `sender`. */
    method SearchBySender(f: FolderId, sender: string) returns (found: seq<Message>)
      requires Valid() && f < |names|
      ensures found == BySender(AllMessages(f), sender)
      decreases rank[f]
    {
      Ranking();
      found := BySender(messages[f], sender);
      var k := 0;
      assert Subtree(f) == [f] + PreorderFrom(subfolders, rank, f, 0);
      GatherAppend(messages, [f], PreorderFrom(subfolders, rank, f, 0));
      BySenderAppend(messages[f], Gather(messages, PreorderFrom(subfolders, rank, f, 0)), sender);
      while k < |subfolders[f]|
        invariant k <= |subfolders[f]|
        invariant found + BySender(Gather(messages, PreorderFrom(subfolders, rank, f, k)), sender)
                  == BySender(AllMessages(f), sender)
      {
        var c := subfolders[f][k];
        var sub := SearchBySender(c, sender);
        ghost var here, rest := Gather(messages, Preorder(subfolders, rank, c)),
                               Gather(messages, PreorderFrom(subfolders, rank, f, k + 1));
        GatherAppend(messages, Preorder(subfolders, rank, c), PreorderFrom(subfolders, rank, f, k + 1));
        assert Gather(messages, PreorderFrom(subfolders, rank, f, k)) == here + rest;
        BySenderAppend(here, rest, sender);
        assert found + sub + BySender(rest, sender) == found + BySender(here + rest, sender);
        found := found + sub;
        k := k + 1;
      }
    }

    /**
     * Moves the first message, in pre-order over the subtree of `f`, whose
     * subject is exactly `subject` to the end of folder `target`, and reports
     * whether there was one. The folders of `f` are searched before those of
     * its subfolders, and the subfolders one after the other; the search
     * stops at the first match.
     */
    method MoveMessage(f: FolderId, subject: string, target: FolderId) returns (moved: bool)
      requires Valid() && f < |names| && target < |names|
      modifies this`messages
      ensures Valid()
      ensures moved <==> old(FindFirst(f, subject)).Some?
      ensures messages == AfterMove(old(messages), old(FindFirst(f, subject)), target)
      decreases rank[f]
    {
      Ranking();
      assert Subtree(f)[1..] == PreorderFrom(subfolders, rank, f, 0);
      var i := 0;
      while i < |messages[f]|
        invariant i <= |messages[f]|
        invariant forall j :: 0 <= j < i ==> messages[f][j].subject != subject
      {
        if messages[f][i].subject == subject {
          var m := messages[f][i];
          assert FirstIn(messages[f], subject) == Some(i);
          RemoveFirstMatch(messages[f], subject, i);
          messages := messages[f := RemoveFirst(messages[f], m)];
          AddMessage(target, m);
          return true;
        }
        i := i + 1;
      }
      assert FirstIn(messages[f], subject) == None;

      var k := 0;
      while k < |subfolders[f]|
        invariant k <= |subfolders[f]|
        invariant messages == old(messages)
        invariant FirstMatch(messages, PreorderFrom(subfolders, rank, f, k), subject)
                  == old(FindFirst(f, subject))
      {
        var c := subfolders[f][k];
        FirstMatchAppend(messages, Preorder(subfolders, rank, c), PreorderFrom(subfolders, rank, f, k + 1), subject);
        moved := MoveMessage(c, subject, target);
        if moved {
          return;
        }
        k := k + 1;
      }
      return false;
    }
  }
}
