/**
 * Value-level description of a table of folders (models/folder.py), used as the
 * specification of the folder operations.
 *
 * Folders are numbered. `kids[f]` is the ordered list of subfolders of folder
 * `f`; `msgs[f]` is its ordered list of messages. A `rank` that strictly
 * decreases from every folder to each of its subfolders witnesses that the
 * structure has no cycles, so walking down from a folder terminates.
 */
module Forests {
  import opened Wrappers
  import opened Messages

  type FolderId = nat

  /** Subfolder references are in range and lead to strictly smaller ranks. */
  ghost predicate Ranked(kids: seq<seq<FolderId>>, rank: seq<nat>)
  {
    |rank| == |kids| &&
    forall f, k :: 0 <= f < |kids| && 0 <= k < |kids[f]| ==>
      kids[f][k] < |kids| && rank[kids[f][k]] < rank[f]
  }

  /** No folder is listed as a subfolder twice, in one list or in two. */
  ghost predicate HeldOnce(kids: seq<seq<FolderId>>)
  {
    forall f, k, g, j ::
      0 <= f < |kids| && 0 <= k < |kids[f]| && 0 <= g < |kids| && 0 <= j < |kids[g]| &&
        kids[f][k] == kids[g][j]
      ==> f == g && k == j
  }

  /** The subfolder lists form a forest: acyclic, every folder has at most one holder. */
  ghost predicate IsForest(kids: seq<seq<FolderId>>, rank: seq<nat>)
  {
    Ranked(kids, rank) && HeldOnce(kids)
  }

  /** Every folder of `ids` is one of the `n` folders of the table. */
  ghost predicate InRange(ids: seq<FolderId>, n: nat)
  {
    forall i :: 0 <= i < |ids| ==> ids[i] < n
  }

  /** No folder occurs twice in `ids`. */
  ghost predicate NoDup(ids: seq<FolderId>)
  {
    forall i, j :: 0 <= i < j < |ids| ==> ids[i] != ids[j]
  }

  /** The folders of the subtree rooted at `f`, depth-first, in pre-order. */
  ghost function Preorder(kids: seq<seq<FolderId>>, rank: seq<nat>, f: FolderId): (r: seq<FolderId>)
    requires Ranked(kids, rank) && f < |kids|
    ensures |r| > 0 && r[0] == f
    ensures InRange(r, |kids|)
    ensures forall x :: x in r ==> x < |kids| && rank[x] <= rank[f]
    decreases rank[f], 1
  {
    [f] + PreorderFrom(kids, rank, f, 0)
  }

  /** The pre-order walks of the subfolders `kids[f][k..]` of `f`, one after the other. */
  ghost function PreorderFrom(kids: seq<seq<FolderId>>, rank: seq<nat>, f: FolderId, k: nat): (r: seq<FolderId>)
    requires Ranked(kids, rank) && f < |kids| && k <= |kids[f]|
    ensures InRange(r, |kids|)
    ensures forall x :: x in r ==> x < |kids| && rank[x] < rank[f]
    decreases rank[f], 0, |kids[f]| - k
  {
    if k == |kids[f]| then []
    else Preorder(kids, rank, kids[f][k]) + PreorderFrom(kids, rank, f, k + 1)
  }

  /** The messages of the folders `ids`, folder after folder, each in its own order. */
  ghost function Gather(msgs: seq<seq<Message>>, ids: seq<FolderId>): seq<Message>
    requires InRange(ids, |msgs|)
  {
    if ids == [] then [] else msgs[ids[0]] + Gather(msgs, ids[1..])
  }

  /** The number of messages held by the folders `ids`. */
  ghost function TotalCount(msgs: seq<seq<Message>>, ids: seq<FolderId>): nat
    requires InRange(ids, |msgs|)
  {
    if ids == [] then 0 else |msgs[ids[0]]| + TotalCount(msgs, ids[1..])
  }

  /** The messages of `ms` that satisfy `p`, in their original order. */
  function Filter(ms: seq<Message>, p: Message -> bool): (r: seq<Message>)
    ensures |r| <= |ms|
    ensures forall m :: m in r <==> m in ms && p(m)
  {
    if ms == [] then []
    else (if p(ms[0]) then [ms[0]] else []) + Filter(ms[1..], p)
  }

  /** The position of the first message of `ms` whose subject is exactly `s`. */
  ghost function FirstIn(ms: seq<Message>, s: string): (r: Option<nat>)
    ensures r.Some? ==> r.value < |ms| && ms[r.value].subject == s &&
                        forall j :: 0 <= j < r.value ==> ms[j].subject != s
    ensures r.None? ==> forall j :: 0 <= j < |ms| ==> ms[j].subject != s
  {
    if ms == [] then None
    else if ms[0].subject == s then Some(0)
    else match FirstIn(ms[1..], s)
      case None => None
      case Some(i) => Some(i + 1)
  }

  /**
   * The first message with subject `s` when the folders `ids` are visited in
   * order: the folder that holds it and its position there.
   */
  ghost function FirstMatch(msgs: seq<seq<Message>>, ids: seq<FolderId>, s: string): (r: Option<(FolderId, nat)>)
    requires InRange(ids, |msgs|)
    ensures r.Some? ==> r.value.0 in ids && r.value.1 < |msgs[r.value.0]| &&
                        msgs[r.value.0][r.value.1].subject == s
  {
    if ids == [] then None
    else match FirstIn(msgs[ids[0]], s)
      case Some(i) => Some((ids[0], i))
      case None => FirstMatch(msgs, ids[1..], s)
  }

  /** `ms` without its element at position `i`. */
  ghost function RemoveAt(ms: seq<Message>, i: nat): seq<Message>
    requires i < |ms|
  {
    ms[..i] + ms[i + 1..]
  }

  /** `ms` without the first element equal to `m` (a list's `remove`). */
  function RemoveFirst(ms: seq<Message>, m: Message): (r: seq<Message>)
    requires m in ms
    ensures |r| == |ms| - 1
  {
    if ms[0] == m then ms[1..] else [ms[0]] + RemoveFirst(ms[1..], m)
  }

  /** The message table after the message at `msgs[g][i]` is taken out and appended to `target`. */
  ghost function Moved(msgs: seq<seq<Message>>, g: FolderId, i: nat, target: FolderId): seq<seq<Message>>
    requires g < |msgs| && i < |msgs[g]| && target < |msgs|
  {
    var m := msgs[g][i];
    var taken := msgs[g := RemoveAt(msgs[g], i)];
    taken[target := taken[target] + [m]]
  }

  /** The message table after a move whose search reported `found`: unchanged when nothing was found. */
  ghost function AfterMove(msgs: seq<seq<Message>>, found: Option<(FolderId, nat)>, target: FolderId): seq<seq<Message>>
    requires found.Some? ==> found.value.0 < |msgs| && found.value.1 < |msgs[found.value.0]|
    requires target < |msgs|
  {
    match found
    case None => msgs
    case Some((g, i)) => Moved(msgs, g, i, target)
  }

  // ---------------------------------------------------------------------------
  // Lemmas about gathering, filtering and searching messages
  // ---------------------------------------------------------------------------

  /** Gathering over two runs of folders is gathering over each, concatenated. */
  lemma {:induction false} GatherAppend(msgs: seq<seq<Message>>, a: seq<FolderId>, b: seq<FolderId>)
    requires InRange(a, |msgs|)
    requires InRange(b, |msgs|)
    ensures Gather(msgs, a + b) == Gather(msgs, a) + Gather(msgs, b)
  {
    if a != [] {
      assert (a + b)[0] == a[0];
      assert (a + b)[1..] == a[1..] + b;
      GatherAppend(msgs, a[1..], b);
    } else {
      assert a + b == b;
    }
  }

  /** The gathered messages are exactly as many as the folders hold in total. */
  lemma {:induction false} GatherLength(msgs: seq<seq<Message>>, ids: seq<FolderId>)
    requires InRange(ids, |msgs|)
    ensures |Gather(msgs, ids)| == TotalCount(msgs, ids)
  {
    if ids != [] {
      GatherLength(msgs, ids[1..]);
    }
  }

  /** Filtering distributes over concatenation, so relative order is kept. */
  lemma {:induction false} FilterAppend(a: seq<Message>, b: seq<Message>, p: Message -> bool)
    ensures Filter(a + b, p) == Filter(a, p) + Filter(b, p)
  {
    if a != [] {
      assert (a + b)[0] == a[0];
      assert (a + b)[1..] == a[1..] + b;
      FilterAppend(a[1..], b, p);
    } else {
      assert a + b == b;
    }
  }

  /** A filter that every message passes keeps the whole sequence. */
  lemma {:induction false} FilterKeepsAll(ms: seq<Message>, p: Message -> bool)
    requires forall i :: 0 <= i < |ms| ==> p(ms[i])
    ensures Filter(ms, p) == ms
  {
    if ms != [] {
      FilterKeepsAll(ms[1..], p);
    }
  }

  /** The first match in `a + b` is the first match in `a`, or else the first in `b`, shifted. */
  lemma {:induction false} FirstInAppend(a: seq<Message>, b: seq<Message>, s: string)
    ensures FirstIn(a + b, s) ==
      if FirstIn(a, s).Some? then FirstIn(a, s)
      else match FirstIn(b, s)
        case None => None
        case Some(i) => Some(|a| + i)
  {
    if a == [] {
      assert a + b == b;
    } else {
      assert (a + b)[0] == a[0];
      if a[0].subject != s {
        assert (a + b)[1..] == a[1..] + b;
        FirstInAppend(a[1..], b, s);
      }
    }
  }

  /** Visiting two runs of folders finds the first match in the first run, if any. */
  lemma {:induction false} FirstMatchAppend(msgs: seq<seq<Message>>, a: seq<FolderId>, b: seq<FolderId>, s: string)
    requires InRange(a, |msgs|)
    requires InRange(b, |msgs|)
    ensures FirstMatch(msgs, a + b, s) ==
      if FirstMatch(msgs, a, s).Some? then FirstMatch(msgs, a, s) else FirstMatch(msgs, b, s)
  {
    if a != [] {
      assert (a + b)[0] == a[0];
      assert (a + b)[1..] == a[1..] + b;
      FirstMatchAppend(msgs, a[1..], b, s);
    } else {
      assert a + b == b;
    }
  }

  /**
   * Searching folder by folder finds the same message as searching the
   * gathered sequence: nothing exactly when no gathered message has subject
   * `s`, and otherwise the first such message of the gathered sequence.
   */
  lemma {:induction false} FirstMatchIsFirst(msgs: seq<seq<Message>>, ids: seq<FolderId>, s: string)
    requires InRange(ids, |msgs|)
    ensures FirstMatch(msgs, ids, s).None? <==> FirstIn(Gather(msgs, ids), s).None?
    ensures FirstMatch(msgs, ids, s).Some? ==>
              var (g, i) := FirstMatch(msgs, ids, s).value;
              Gather(msgs, ids)[FirstIn(Gather(msgs, ids), s).value] == msgs[g][i]
  {
    if ids != [] {
      FirstMatchIsFirst(msgs, ids[1..], s);
      FirstInAppend(msgs[ids[0]], Gather(msgs, ids[1..]), s);
    }
  }

  /** A list's `remove` of the first message with subject `s` removes exactly that position. */
  lemma {:induction false} RemoveFirstMatch(ms: seq<Message>, s: string, i: nat)
    requires FirstIn(ms, s) == Some(i)
    ensures RemoveFirst(ms, ms[i]) == RemoveAt(ms, i)
  {
    if i > 0 {
      assert ms[0] != ms[i];
      assert FirstIn(ms[1..], s) == Some(i - 1);
      RemoveFirstMatch(ms[1..], s, i - 1);
      assert ms[1..][..i - 1] == ms[1..i];
      assert ms[1..][i..] == ms[i + 1..];
      assert [ms[0]] + ms[1..i] == ms[..i];
    }
  }

  /** Taking one message out leaves the multiset of the others. */
  lemma RemoveAtMultiset(ms: seq<Message>, i: nat)
    requires i < |ms|
    ensures multiset(RemoveAt(ms, i)) + multiset{ms[i]} == multiset(ms)
  {
    assert ms == ms[..i] + [ms[i]] + ms[i + 1..];
  }

  /** Replacing the messages of a folder outside `ids` does not change what `ids` gather. */
  lemma {:induction false} GatherUntouched(msgs: seq<seq<Message>>, ids: seq<FolderId>, g: FolderId, l: seq<Message>)
    requires InRange(ids, |msgs|) && g < |msgs| && g !in ids
    ensures Gather(msgs[g := l], ids) == Gather(msgs, ids)
  {
    if ids != [] {
      GatherUntouched(msgs, ids[1..], g, l);
    }
  }

  /**
   * Replacing the messages of one folder `g` of a duplicate-free run of
   * folders by `l` changes the gathered messages by exactly that difference.
   */
  lemma {:induction false} GatherUpdate(msgs: seq<seq<Message>>, ids: seq<FolderId>, g: FolderId, l: seq<Message>)
    requires InRange(ids, |msgs|) && g < |msgs| && NoDup(ids) && g in ids
    ensures multiset(Gather(msgs[g := l], ids)) + multiset(msgs[g]) == multiset(Gather(msgs, ids)) + multiset(l)
  {
    var updated := msgs[g := l];
    var h, t := ids[0], ids[1..];
    assert NoDup(t);
    assert Gather(updated, ids) == updated[h] + Gather(updated, t);
    assert Gather(msgs, ids) == msgs[h] + Gather(msgs, t);
    if h == g {
      assert g !in t;
      GatherUntouched(msgs, t, g, l);
    } else {
      assert g in t && updated[h] == msgs[h];
      GatherUpdate(msgs, t, g, l);
      calc {
        multiset(Gather(updated, ids)) + multiset(msgs[g]);
        multiset(msgs[h]) + (multiset(Gather(updated, t)) + multiset(msgs[g]));
        multiset(msgs[h]) + (multiset(Gather(msgs, t)) + multiset(l));
        multiset(Gather(msgs, ids)) + multiset(l);
      }
    }
  }

  // ---------------------------------------------------------------------------
  // Lemmas about the shape of the forest
  // ---------------------------------------------------------------------------

  /** The subtree of a folder without subfolders is that folder alone. */
  lemma LeafPreorder(kids: seq<seq<FolderId>>, rank: seq<nat>, f: FolderId)
    requires Ranked(kids, rank) && f < |kids| && kids[f] == []
    ensures Preorder(kids, rank, f) == [f]
  {
  }

  /** A folder is in the walks of `kids[f][k..]` exactly when it is in the walk of one of them. */
  lemma {:induction false} InFrom(kids: seq<seq<FolderId>>, rank: seq<nat>, f: FolderId, k: nat, x: FolderId)
    requires Ranked(kids, rank) && f < |kids| && k <= |kids[f]|
    ensures x in PreorderFrom(kids, rank, f, k) <==>
            exists j :: k <= j < |kids[f]| && x in Preorder(kids, rank, kids[f][j])
    decreases |kids[f]| - k
  {
    if k < |kids[f]| {
      var c := kids[f][k];
      var rest := PreorderFrom(kids, rank, f, k + 1);
      assert PreorderFrom(kids, rank, f, k) == Preorder(kids, rank, c) + rest;
      InFrom(kids, rank, f, k + 1, x);
      if x in Preorder(kids, rank, c) {
        assert k <= k < |kids[f]| && x in Preorder(kids, rank, kids[f][k]);
      } else if x !in rest {
        forall j | k <= j < |kids[f]|
          ensures x !in Preorder(kids, rank, kids[f][j])
        {
        }
      }
    }
  }

  /** The subtree of a folder in the subtree of `b` lies inside the subtree of `b`. */
  lemma {:induction false} PreorderTransitive(kids: seq<seq<FolderId>>, rank: seq<nat>, a: FolderId, b: FolderId, x: FolderId)
    requires Ranked(kids, rank) && a < |kids| && b < |kids|
    requires a in Preorder(kids, rank, b) && x in Preorder(kids, rank, a)
    ensures x in Preorder(kids, rank, b)
    decreases rank[b]
  {
    if a != b {
      InFrom(kids, rank, b, 0, a);
      var j :| 0 <= j < |kids[b]| && a in Preorder(kids, rank, kids[b][j]);
      PreorderTransitive(kids, rank, a, kids[b][j], x);
      InFrom(kids, rank, b, 0, x);
    }
  }

  /** Every folder of a subtree other than its root is held by another folder of that subtree. */
  lemma {:induction false} HolderInPreorder(kids: seq<seq<FolderId>>, rank: seq<nat>, f: FolderId, x: FolderId)
    returns (p: FolderId, j: nat)
    requires Ranked(kids, rank) && f < |kids|
    requires x in Preorder(kids, rank, f) && x != f
    ensures p < |kids| && p in Preorder(kids, rank, f) && j < |kids[p]| && kids[p][j] == x
    decreases rank[f]
  {
    InFrom(kids, rank, f, 0, x);
    var k :| 0 <= k < |kids[f]| && x in Preorder(kids, rank, kids[f][k]);
    var c := kids[f][k];
    if x == c {
      p, j := f, k;
    } else {
      p, j := HolderInPreorder(kids, rank, c, x);
      InFrom(kids, rank, f, 0, p);
    }
  }

  /** Two subtrees that share a folder are nested one inside the other. */
  lemma {:induction false} Nested(kids: seq<seq<FolderId>>, rank: seq<nat>, a: FolderId, b: FolderId, x: FolderId)
    requires IsForest(kids, rank) && a < |kids| && b < |kids|
    requires x in Preorder(kids, rank, a) && x in Preorder(kids, rank, b)
    ensures a in Preorder(kids, rank, b) || b in Preorder(kids, rank, a)
    decreases rank[a] - rank[x]
  {
    if x != a && x != b {
      var p, j := HolderInPreorder(kids, rank, a, x);
      var q, i := HolderInPreorder(kids, rank, b, x);
      assert p == q;
      Nested(kids, rank, a, b, p);
    }
  }

  /** The subtrees of two different subfolders of one folder are disjoint. */
  lemma SiblingsDisjoint(kids: seq<seq<FolderId>>, rank: seq<nat>, f: FolderId, j: nat, k: nat, x: FolderId)
    requires IsForest(kids, rank) && f < |kids| && j < |kids[f]| && k < |kids[f]| && j != k
    requires x in Preorder(kids, rank, kids[f][j])
    ensures x !in Preorder(kids, rank, kids[f][k])
  {
    var a, b := kids[f][j], kids[f][k];
    if x in Preorder(kids, rank, b) {
      Nested(kids, rank, a, b, x);
      if a in Preorder(kids, rank, b) {
        var p, i := HolderInPreorder(kids, rank, b, a);
        assert false;
      } else {
        var p, i := HolderInPreorder(kids, rank, a, b);
        assert false;
      }
    }
  }

  /** Two duplicate-free sequences with no common element concatenate to a duplicate-free one. */
  lemma NoDupAppend(a: seq<FolderId>, b: seq<FolderId>)
    requires NoDup(a) && NoDup(b)
    requires forall x :: x in a ==> x !in b
    ensures NoDup(a + b)
  {
    forall i, j | 0 <= i < j < |a + b|
      ensures (a + b)[i] != (a + b)[j]
    {
      if i < |a| && j >= |a| {
        assert (a + b)[i] in a && (a + b)[j] in b;
      }
    }
  }

  /** In a forest, the pre-order walk of a subtree visits each folder once. */
  lemma {:induction false} PreorderNoDup(kids: seq<seq<FolderId>>, rank: seq<nat>, f: FolderId)
    requires IsForest(kids, rank) && f < |kids|
    ensures NoDup(Preorder(kids, rank, f))
    decreases rank[f], 1
  {
    PreorderFromNoDup(kids, rank, f, 0);
    NoDupAppend([f], PreorderFrom(kids, rank, f, 0));
  }

  /** In a forest, the walks of `kids[f][k..]` together visit each folder once. */
  lemma {:induction false} PreorderFromNoDup(kids: seq<seq<FolderId>>, rank: seq<nat>, f: FolderId, k: nat)
    requires IsForest(kids, rank) && f < |kids| && k <= |kids[f]|
    ensures NoDup(PreorderFrom(kids, rank, f, k))
    decreases rank[f], 0, |kids[f]| - k
  {
    if k < |kids[f]| {
      var c := kids[f][k];
      PreorderNoDup(kids, rank, c);
      PreorderFromNoDup(kids, rank, f, k + 1);
      forall x | x in Preorder(kids, rank, c)
        ensures x !in PreorderFrom(kids, rank, f, k + 1)
      {
        InFrom(kids, rank, f, k + 1, x);
        if x in PreorderFrom(kids, rank, f, k + 1) {
          var j :| k + 1 <= j < |kids[f]| && x in Preorder(kids, rank, kids[f][j]);
          SiblingsDisjoint(kids, rank, f, k, j, x);
        }
      }
      NoDupAppend(Preorder(kids, rank, c), PreorderFrom(kids, rank, f, k + 1));
    }
  }

  /** Multiset union cancels. */
  lemma Cancel(x: multiset<Message>, y: multiset<Message>, z: multiset<Message>)
    requires x + z == y + z
    ensures x == y
  {
    forall e ensures x[e] == y[e] {
      assert (x + z)[e] == x[e] + z[e] && (y + z)[e] == y[e] + z[e];
    }
  }

  /** Taking one message out of a folder of a duplicate-free run removes it from what the run gathers. */
  lemma TakeOut(msgs: seq<seq<Message>>, ids: seq<FolderId>, g: FolderId, i: nat)
    requires InRange(ids, |msgs|) && NoDup(ids) && g in ids && g < |msgs| && i < |msgs[g]|
    ensures multiset(Gather(msgs[g := RemoveAt(msgs[g], i)], ids)) + multiset{msgs[g][i]}
         == multiset(Gather(msgs, ids))
  {
    var removed := RemoveAt(msgs[g], i);
    var taken := msgs[g := removed];
    GatherUpdate(msgs, ids, g, removed);
    RemoveAtMultiset(msgs[g], i);
    calc {
      multiset(Gather(taken, ids)) + multiset{msgs[g][i]} + multiset(removed);
      multiset(Gather(taken, ids)) + multiset(msgs[g]);
      multiset(Gather(msgs, ids)) + multiset(removed);
    }
    Cancel(multiset(Gather(taken, ids)) + multiset{msgs[g][i]}, multiset(Gather(msgs, ids)), multiset(removed));
  }

  /** Appending one message to a folder of a duplicate-free run adds it to what the run gathers. */
  lemma PutIn(msgs: seq<seq<Message>>, ids: seq<FolderId>, target: FolderId, m: Message)
    requires InRange(ids, |msgs|) && NoDup(ids) && target in ids && target < |msgs|
    ensures multiset(Gather(msgs[target := msgs[target] + [m]], ids))
         == multiset(Gather(msgs, ids)) + multiset{m}
  {
    GatherUpdate(msgs, ids, target, msgs[target] + [m]);
    assert multiset(msgs[target] + [m]) == multiset(msgs[target]) + multiset{m};
    Cancel(multiset(Gather(msgs[target := msgs[target] + [m]], ids)),
           multiset(Gather(msgs, ids)) + multiset{m}, multiset(msgs[target]));
  }

  /**
   * Moving a message of the subtree of `r` keeps the subtree's messages (as a
   * multiset) when the target folder is in the subtree too, and loses exactly
   * the moved message when the target lies outside it.
   */
  lemma MoveConserves(kids: seq<seq<FolderId>>, rank: seq<nat>, msgs: seq<seq<Message>>,
                      r: FolderId, g: FolderId, i: nat, target: FolderId)
    requires IsForest(kids, rank) && |msgs| == |kids| && r < |kids|
    requires g in Preorder(kids, rank, r) && i < |msgs[g]| && target < |msgs|
    ensures var before := multiset(Gather(msgs, Preorder(kids, rank, r)));
            var after := multiset(Gather(Moved(msgs, g, i, target), Preorder(kids, rank, r)));
            if target in Preorder(kids, rank, r) then after == before
            else after + multiset{msgs[g][i]} == before
  {
    var ids := Preorder(kids, rank, r);
    var m := msgs[g][i];
    var taken := msgs[g := RemoveAt(msgs[g], i)];
    PreorderNoDup(kids, rank, r);
    TakeOut(msgs, ids, g, i);
    assert Moved(msgs, g, i, target) == taken[target := taken[target] + [m]];
    if target in ids {
      PutIn(taken, ids, target, m);
    } else {
      GatherUntouched(taken, ids, target, taken[target] + [m]);
    }
  }
}
