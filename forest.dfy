/**
 * Tree-wide views of the task arena (task.cc): the subtree below a task, the
 * offspring counts, the filtered view that ApplyFilter computes, and the net
 * effect of Delete.  Recursion carries `avail`, the tasks not yet on the
 * current path; the public entry points start with every task.  In a tree the
 * bound never cuts anything off; on a cycle it stops where task.cc would recurse
 * forever.
 */
module Forest {
  import opened Wrappers
  import opened Sequences
  import opened Tasks

  /** All tasks, keyed by identity. */
  type Arena = map<TaskId, Node>

  /**
   * The ownership invariant: every child of a task lists that task as its
   * parent, and a task with a parent is listed by that parent exactly once.
   */
  ghost predicate WellLinked(m: Arena)
  {
    && (forall k, c :: k in m && c in m[k].subtasks ==> c in m && m[c].parent == Some(k))
    && (forall k :: k in m && m[k].parent.Some? ==>
          m[k].parent.value in m && multiset(m[m[k].parent.value].subtasks)[k] == 1)
  }

  // ---------------------------------------------------------------- subtree

  /** The tasks in the subtree rooted at id (id included), within `avail`. */
  function SubtreeWithin(m: Arena, id: TaskId, avail: set<TaskId>): (r: set<TaskId>)
    decreases avail, 0
    ensures r <= avail && r <= m.Keys
    ensures id in r <==> id in avail && id in m
  {
    if id !in avail || id !in m then {}
    else {id} + SubtreesWithin(m, m[id].subtasks, avail - {id})
  }

  /** The union of the subtrees rooted at the tasks of ids. */
  function SubtreesWithin(m: Arena, ids: seq<TaskId>, avail: set<TaskId>): (r: set<TaskId>)
    decreases avail, 1, |ids|
    ensures r <= avail && r <= m.Keys
  {
    if ids == [] then {}
    else SubtreeWithin(m, ids[0], avail) + SubtreesWithin(m, ids[1..], avail)
  }

  /** The subtree rooted at id: what Delete destroys. */
  function Subtree(m: Arena, id: TaskId): set<TaskId>
  {
    SubtreeWithin(m, id, m.Keys)
  }

  /** A task of a children union lies in the subtree of one of the children. */
  lemma {:induction false} SubtreesMember(m: Arena, ids: seq<TaskId>, avail: set<TaskId>, x: TaskId)
    requires x in SubtreesWithin(m, ids, avail)
    ensures exists j :: 0 <= j < |ids| && x in SubtreeWithin(m, ids[j], avail)
  {
    if x !in SubtreeWithin(m, ids[0], avail) {
      SubtreesMember(m, ids[1..], avail, x);
      var j :| 0 <= j < |ids[1..]| && x in SubtreeWithin(m, ids[1..][j], avail);
      assert ids[1..][j] == ids[j + 1];
    }
  }

  /** The subtree of any listed child is part of the children union. */
  lemma {:induction false} SubtreesInclude(m: Arena, ids: seq<TaskId>, avail: set<TaskId>, j: nat)
    requires j < |ids|
    ensures SubtreeWithin(m, ids[j], avail) <= SubtreesWithin(m, ids, avail)
  {
    if j > 0 {
      SubtreesInclude(m, ids[1..], avail, j - 1);
      assert ids[1..][j - 1] == ids[j];
    }
  }

  /** Every task of a subtree other than its root is a listed child of a task of that subtree. */
  lemma {:induction false} SubtreeHasParentInside(m: Arena, r: TaskId, avail: set<TaskId>, x: TaskId)
    requires x in SubtreeWithin(m, r, avail) && x != r
    ensures exists y :: y in SubtreeWithin(m, r, avail) && x in m[y].subtasks
    decreases avail, 0
  {
    var subs := m[r].subtasks;
    SubtreesMember(m, subs, avail - {r}, x);
    var j :| 0 <= j < |subs| && x in SubtreeWithin(m, subs[j], avail - {r});
    SubtreesInclude(m, subs, avail - {r}, j);
    if x != subs[j] {
      SubtreeHasParentInside(m, subs[j], avail - {r}, x);
    }
  }

  /**
   * The children of a task of a subtree are in the subtree, unless they fell
   * outside `avail` (a child missing from the arena is outside it too).
   */
  lemma {:induction false} SubtreeClosed(m: Arena, r: TaskId, avail: set<TaskId>, x: TaskId, c: TaskId)
    requires x in SubtreeWithin(m, r, avail) && c in m[x].subtasks
    ensures c in SubtreeWithin(m, r, avail) || c !in avail || c !in m
    decreases avail, 0
  {
    var subs := m[r].subtasks;
    var inner := avail - {r};
    if x == r {
      if c != r && c in avail && c in m {
        var j :| 0 <= j < |subs| && subs[j] == c;
        SubtreesInclude(m, subs, inner, j);
      }
    } else {
      SubtreesMember(m, subs, inner, x);
      var j :| 0 <= j < |subs| && x in SubtreeWithin(m, subs[j], inner);
      SubtreesInclude(m, subs, inner, j);
      SubtreeClosed(m, subs[j], inner, x, c);
    }
  }

  /** Tasks with the same child lists have the same subtrees. */
  lemma {:induction false} SameChildrenSameSubtree(m1: Arena, m2: Arena, id: TaskId, avail: set<TaskId>)
    requires m1.Keys == m2.Keys
    requires forall k :: k in m1 ==> m1[k].subtasks == m2[k].subtasks
    ensures SubtreeWithin(m1, id, avail) == SubtreeWithin(m2, id, avail)
    decreases avail, 0
  {
    if id in avail && id in m1 {
      SameChildrenSameSubtrees(m1, m2, m1[id].subtasks, avail - {id});
    }
  }

  lemma {:induction false} SameChildrenSameSubtrees(m1: Arena, m2: Arena, ids: seq<TaskId>, avail: set<TaskId>)
    requires m1.Keys == m2.Keys
    requires forall k :: k in m1 ==> m1[k].subtasks == m2[k].subtasks
    ensures SubtreesWithin(m1, ids, avail) == SubtreesWithin(m2, ids, avail)
    decreases avail, 1, |ids|
  {
    if ids != [] {
      SameChildrenSameSubtree(m1, m2, ids[0], avail);
      SameChildrenSameSubtrees(m1, m2, ids[1..], avail);
    }
  }

  // ---------------------------------------------------------------- counts

  /** NumOffspring: every task below id counted once per listing. */
  function OffspringWithin(m: Arena, id: TaskId, avail: set<TaskId>): (r: nat)
    decreases avail, 0
    ensures id in avail && id in m ==> r >= |m[id].subtasks|
  {
    if id !in avail || id !in m then 0
    else OffspringOfAll(m, m[id].subtasks, avail - {id})
  }

  /** The sum over ids of 1 plus that child's offspring (the loop of NumOffspring). */
  function OffspringOfAll(m: Arena, ids: seq<TaskId>, avail: set<TaskId>): (r: nat)
    decreases avail, 1, |ids|
    ensures r >= |ids|
  {
    if ids == [] then 0
    else 1 + OffspringWithin(m, ids[0], avail) + OffspringOfAll(m, ids[1..], avail)
  }

  /** Task::NumOffspring: a task has at least as many offspring as children. */
  function NumOffspring(m: Arena, id: TaskId): (r: nat)
    ensures id in m ==> r >= |m[id].subtasks|
  {
    OffspringWithin(m, id, m.Keys)
  }

  /** NumFilteredOffspring: the same count, taken over the filtered views. */
  function FilteredOffspringWithin(m: Arena, id: TaskId, avail: set<TaskId>): (r: nat)
    decreases avail, 0
    ensures id in avail && id in m ==> r >= |m[id].filtered|
  {
    if id !in avail || id !in m then 0
    else FilteredOffspringOfAll(m, m[id].filtered, avail - {id})
  }

  function FilteredOffspringOfAll(m: Arena, ids: seq<TaskId>, avail: set<TaskId>): (r: nat)
    decreases avail, 1, |ids|
    ensures r >= |ids|
  {
    if ids == [] then 0
    else 1 + FilteredOffspringWithin(m, ids[0], avail) + FilteredOffspringOfAll(m, ids[1..], avail)
  }

  /** Task::NumFilteredOffspring: at least NumFilteredChildren. */
  function NumFilteredOffspring(m: Arena, id: TaskId): (r: nat)
    ensures id in m ==> r >= |m[id].filtered|
  {
    FilteredOffspringWithin(m, id, m.Keys)
  }

  /** When every view selects from its own child list, the filtered count never exceeds the full count. */
  lemma {:induction false} FilteredAtMostOffspring(m: Arena, id: TaskId, avail: set<TaskId>)
    requires forall k :: k in m ==> IsSubseq(m[k].filtered, m[k].subtasks)
    ensures FilteredOffspringWithin(m, id, avail) <= OffspringWithin(m, id, avail)
    decreases avail, 0
  {
    if id in avail && id in m {
      FilteredAtMostOffspringAll(m, m[id].filtered, m[id].subtasks, avail - {id});
    }
  }

  lemma {:induction false} FilteredAtMostOffspringAll(m: Arena, fs: seq<TaskId>, ss: seq<TaskId>, avail: set<TaskId>)
    requires forall k :: k in m ==> IsSubseq(m[k].filtered, m[k].subtasks)
    requires IsSubseq(fs, ss)
    ensures FilteredOffspringOfAll(m, fs, avail) <= OffspringOfAll(m, ss, avail)
    decreases avail, 1, |ss|
  {
    if fs != [] {
      if fs[0] == ss[0] && IsSubseq(fs[1..], ss[1..]) {
        FilteredAtMostOffspring(m, fs[0], avail);
        FilteredAtMostOffspringAll(m, fs[1..], ss[1..], avail);
      } else {
        FilteredAtMostOffspringAll(m, fs, ss[1..], avail);
      }
    }
  }

  /** The offspring count reads only the child lists. */
  lemma {:induction false} SameChildrenSameOffspring(m1: Arena, m2: Arena, id: TaskId, avail: set<TaskId>)
    requires m1.Keys == m2.Keys
    requires forall k :: k in m1 ==> m1[k].subtasks == m2[k].subtasks
    ensures OffspringWithin(m1, id, avail) == OffspringWithin(m2, id, avail)
    decreases avail, 0
  {
    if id in avail && id in m1 {
      SameChildrenSameOffspringAll(m1, m2, m1[id].subtasks, avail - {id});
    }
  }

  lemma {:induction false} SameChildrenSameOffspringAll(m1: Arena, m2: Arena, ids: seq<TaskId>, avail: set<TaskId>)
    requires m1.Keys == m2.Keys
    requires forall k :: k in m1 ==> m1[k].subtasks == m2[k].subtasks
    ensures OffspringOfAll(m1, ids, avail) == OffspringOfAll(m2, ids, avail)
    decreases avail, 1, |ids|
  {
    if ids != [] {
      SameChildrenSameOffspring(m1, m2, ids[0], avail);
      SameChildrenSameOffspringAll(m1, m2, ids[1..], avail);
    }
  }

  // ---------------------------------------------------------------- filtering

  /**
   * FilterPredicate::FilterVector over a child list, as assumed here: keep, in
   * order, the children whose current state satisfies `keep`.
   */
  function FilterIds(ids: seq<TaskId>, m: Arena, keep: Node -> bool): (r: seq<TaskId>)
    ensures IsSubseq(r, ids)
    ensures forall x :: x in r <==> x in ids && x in m && keep(m[x])
  {
    if ids == [] then []
    else if ids[0] in m && keep(m[ids[0]]) then [ids[0]] + FilterIds(ids[1..], m, keep)
    else FilterIds(ids[1..], m, keep)
  }

  /** The selection depends only on the listed tasks. */
  lemma {:induction false} FilterIdsFrame(ids: seq<TaskId>, m1: Arena, m2: Arena, keep: Node -> bool)
    requires forall x :: x in ids ==> (x in m1 <==> x in m2) && (x in m1 ==> m1[x] == m2[x])
    ensures FilterIds(ids, m1, keep) == FilterIds(ids, m2, keep)
  {
    if ids != [] {
      FilterIdsFrame(ids[1..], m1, m2, keep);
    }
  }

  /** A predicate that rejects every task selects nothing. */
  lemma FilterIdsRejectAll(ids: seq<TaskId>, m: Arena, keep: Node -> bool)
    requires forall n :: !keep(n)
    ensures FilterIds(ids, m, keep) == []
  {
  }

  /**
   * ApplyFilter(keep) on task id: first every child in order (each one seeing
   * the state its earlier siblings left), then id's own view from its children
   * as they now are.  Only `filtered` fields change.
   */
  function Refiltered(m: Arena, id: TaskId, keep: Node -> bool, avail: set<TaskId>): (r: Arena)
    decreases avail, 0
    ensures r.Keys == m.Keys
    ensures forall k :: k in m ==> r[k] == m[k].(filtered := r[k].filtered)
  {
    if id !in avail || id !in m then m
    else
      var m1 := RefilteredAll(m, m[id].subtasks, keep, avail - {id});
      m1[id := m1[id].(filtered := FilterIds(m1[id].subtasks, m1, keep))]
  }

  /** ApplyFilter on each of ids in turn. */
  function RefilteredAll(m: Arena, ids: seq<TaskId>, keep: Node -> bool, avail: set<TaskId>): (r: Arena)
    decreases avail, 1, |ids|
    ensures r.Keys == m.Keys
    ensures forall k :: k in m ==> r[k] == m[k].(filtered := r[k].filtered)
  {
    if ids == [] then m
    else RefilteredAll(Refiltered(m, ids[0], keep, avail), ids[1..], keep, avail)
  }

  /** The view ApplyFilter leaves on the task it was called on: its kept children, in order. */
  lemma RefilteredOwnView(m: Arena, id: TaskId, keep: Node -> bool, avail: set<TaskId>)
    requires id in avail && id in m && id !in m[id].subtasks
    ensures var r := Refiltered(m, id, keep, avail);
            r[id].filtered == FilterIds(m[id].subtasks, r, keep)
  {
    var m1 := RefilteredAll(m, m[id].subtasks, keep, avail - {id});
    var r := Refiltered(m, id, keep, avail);
    FilterIdsFrame(m[id].subtasks, m1, r, keep);
  }

  /** ApplyFilter changes nothing outside the subtree it is called on. */
  lemma {:induction false} RefilteredFrame(m: Arena, id: TaskId, keep: Node -> bool, avail: set<TaskId>, k: TaskId)
    requires k in m && k !in SubtreeWithin(m, id, avail)
    ensures Refiltered(m, id, keep, avail)[k] == m[k]
    decreases avail, 0
  {
    if id in avail && id in m {
      RefilteredAllFrame(m, m[id].subtasks, keep, avail - {id}, k);
    }
  }

  lemma {:induction false} RefilteredAllFrame(m: Arena, ids: seq<TaskId>, keep: Node -> bool, avail: set<TaskId>, k: TaskId)
    requires k in m && k !in SubtreesWithin(m, ids, avail)
    ensures RefilteredAll(m, ids, keep, avail)[k] == m[k]
    decreases avail, 1, |ids|
  {
    if ids != [] {
      var m1 := Refiltered(m, ids[0], keep, avail);
      RefilteredFrame(m, ids[0], keep, avail, k);
      SameChildrenSameSubtrees(m, m1, ids[1..], avail);
      RefilteredAllFrame(m1, ids[1..], keep, avail, k);
    }
  }

  /** With a predicate that rejects everything, every view in the subtree ends up empty. */
  lemma {:induction false} RejectAllEmptiesSubtree(m: Arena, id: TaskId, keep: Node -> bool, avail: set<TaskId>)
    requires forall n :: !keep(n)
    ensures var r := Refiltered(m, id, keep, avail);
            forall k :: k in SubtreeWithin(m, id, avail) ==> r[k].filtered == []
    ensures var r := Refiltered(m, id, keep, avail);
            forall k :: k in m ==> r[k].filtered == m[k].filtered || r[k].filtered == []
    ensures var r := Refiltered(m, id, keep, avail);
            forall k :: k in m && k !in SubtreeWithin(m, id, avail) ==> r[k] == m[k]
    decreases avail, 0
  {
    forall k | k in m && k !in SubtreeWithin(m, id, avail)
      ensures Refiltered(m, id, keep, avail)[k] == m[k]
    {
      RefilteredFrame(m, id, keep, avail, k);
    }
    if id in avail && id in m {
      var inner := avail - {id};
      var m1 := RefilteredAll(m, m[id].subtasks, keep, inner);
      RejectAllEmptiesAll(m, m[id].subtasks, keep, inner);
      FilterIdsRejectAll(m1[id].subtasks, m1, keep);
      var r := m1[id := m1[id].(filtered := [])];
      assert Refiltered(m, id, keep, avail) == r;
      assert SubtreeWithin(m, id, avail) == {id} + SubtreesWithin(m, m[id].subtasks, inner);
    }
  }

  lemma {:induction false} RejectAllEmptiesAll(m: Arena, ids: seq<TaskId>, keep: Node -> bool, avail: set<TaskId>)
    requires forall n :: !keep(n)
    ensures var r := RefilteredAll(m, ids, keep, avail);
            forall k :: k in SubtreesWithin(m, ids, avail) ==> r[k].filtered == []
    ensures var r := RefilteredAll(m, ids, keep, avail);
            forall k :: k in m ==> r[k].filtered == m[k].filtered || r[k].filtered == []
    decreases avail, 1, |ids|
  {
    if ids != [] {
      var m1 := Refiltered(m, ids[0], keep, avail);
      RejectAllEmptiesSubtree(m, ids[0], keep, avail);
      RejectAllEmptiesAll(m1, ids[1..], keep, avail);
      SameChildrenSameSubtrees(m, m1, ids[1..], avail);
    }
  }

  /**
   * A reject-all ApplyFilter on a task leaves it with no filtered offspring,
   * while its (canonical) offspring count is unchanged.
   */
  lemma RejectAllCounts(m: Arena, id: TaskId, keep: Node -> bool)
    requires id in m
    requires forall n :: !keep(n)
    ensures NumFilteredOffspring(Refiltered(m, id, keep, m.Keys), id) == 0
    ensures NumOffspring(Refiltered(m, id, keep, m.Keys), id) == NumOffspring(m, id)
  {
    var r := Refiltered(m, id, keep, m.Keys);
    RejectAllEmptiesSubtree(m, id, keep, m.Keys);
    assert r[id].filtered == [];
    assert FilteredOffspringWithin(r, id, r.Keys) == FilteredOffspringOfAll(r, [], r.Keys - {id}) == 0;
    SameChildrenSameOffspring(m, r, id, m.Keys);
  }

  // ---------------------------------------------------------------- deletion

  /** RemoveSubtaskFromList on id's parent, if id has one. */
  function Detached(m: Arena, id: TaskId): Arena
    requires id in m
  {
    if m[id].parent.Some? && m[id].parent.value in m then
      var p := m[id].parent.value;
      m[p := m[p].(subtasks := RemoveFirst(m[p].subtasks, id))]
    else m
  }

  /**
   * The arena after Delete on id: the task leaves its parent's list and its
   * whole subtree is destroyed.
   */
  function Deleted(m: Arena, id: TaskId): (r: Arena)
    requires id in m
    ensures r.Keys <= m.Keys && id !in r
    ensures forall k :: k in r ==> |r[k].subtasks| <= |m[k].subtasks|
  {
    var doomed := Subtree(m, id);
    var m1 := Detached(m, id);
    map k | k in m1 && k !in doomed :: m1[k]
  }

  /** A child listed after detaching was listed before, and is not the detached task. */
  lemma DetachedListed(m: Arena, id: TaskId, k: TaskId, c: TaskId)
    requires WellLinked(m) && id in m && k in m
    requires c in Detached(m, id)[k].subtasks
    ensures c in m[k].subtasks && c != id
  {
    var m1 := Detached(m, id);
    if m1[k] != m[k] {
      var p := m[id].parent.value;
      assert k == p;
      RemoveFirstMultiset(m[p].subtasks, id);
      RemoveOnlyOccurrence(m[p].subtasks, id, c);
    } else if c == id {
      assert m[id].parent == Some(k);
      RemoveOnlyOccurrence(m[k].subtasks, id, id);
    }
  }

  /** Detaching leaves every other task's number of listings unchanged. */
  lemma DetachedCount(m: Arena, id: TaskId, k: TaskId, y: TaskId)
    requires WellLinked(m) && id in m && k in m && y != id
    ensures multiset(Detached(m, id)[k].subtasks)[y] == multiset(m[k].subtasks)[y]
  {
    var m1 := Detached(m, id);
    if m1[k] != m[k] {
      var p := m[id].parent.value;
      RemoveOnlyOccurrence(m[p].subtasks, id, y);
    }
  }

  /** Which tasks survive Delete, and that a survivor is as detaching left it. */
  lemma DeletedAt(m: Arena, id: TaskId, k: TaskId)
    requires id in m
    ensures k in Deleted(m, id) <==> k in m && k !in Subtree(m, id)
    ensures k in Deleted(m, id) ==> Deleted(m, id)[k] == Detached(m, id)[k]
  {
  }

  /** Under the invariant, the parent of a non-root task of a subtree is in that subtree. */
  lemma ParentInSubtree(m: Arena, r: TaskId, x: TaskId, k: TaskId)
    requires WellLinked(m) && x in Subtree(m, r) && x != r && m[x].parent == Some(k)
    ensures k in Subtree(m, r)
  {
    SubtreeHasParentInside(m, r, m.Keys, x);
    var y :| y in Subtree(m, r) && x in m[y].subtasks;
    assert m[x].parent == Some(y);
  }

  /** One listed child of a surviving task survives and points back. */
  lemma DeletedChildLinked(m: Arena, id: TaskId, k: TaskId, c: TaskId)
    requires WellLinked(m) && id in m
    requires k in Deleted(m, id) && c in Deleted(m, id)[k].subtasks
    ensures c in Deleted(m, id) && Deleted(m, id)[c].parent == Some(k)
  {
    DeletedAt(m, id, k);
    DeletedAt(m, id, c);
    DetachedListed(m, id, k, c);
    assert m[c].parent == Some(k);
    if c in Subtree(m, id) {
      ParentInSubtree(m, id, c, k);
    }
  }

  /** After Delete every listed child is still there and still points back. */
  lemma DeletedChildrenLinked(m: Arena, id: TaskId)
    requires WellLinked(m) && id in m
    ensures var r := Deleted(m, id);
            forall k, c :: k in r && c in r[k].subtasks ==> c in r && r[c].parent == Some(k)
  {
    forall k, c | k in Deleted(m, id) && c in Deleted(m, id)[k].subtasks
      ensures c in Deleted(m, id) && Deleted(m, id)[c].parent == Some(k)
    {
      DeletedChildLinked(m, id, k, c);
    }
  }

  /** After Delete every remaining parent is still there and lists its child once. */
  lemma DeletedParentsLinked(m: Arena, id: TaskId)
    requires WellLinked(m) && id in m
    ensures var r := Deleted(m, id);
            forall k :: k in r && r[k].parent.Some? ==>
              r[k].parent.value in r && multiset(r[r[k].parent.value].subtasks)[k] == 1
  {
    var doomed := Subtree(m, id);
    var m1 := Detached(m, id);
    var r := Deleted(m, id);
    forall k | k in r && r[k].parent.Some?
      ensures r[k].parent.value in r && multiset(r[r[k].parent.value].subtasks)[k] == 1
    {
      assert r[k] == m1[k];
      var q := r[k].parent.value;
      assert m[k].parent == Some(q);
      assert multiset(m[q].subtasks)[k] == 1;
      assert k in m[q].subtasks;
      if q in doomed {
        SubtreeClosed(m, id, m.Keys, q, k);
      }
      assert id in doomed;
      DetachedCount(m, id, q, k);
      assert r[q] == m1[q];
    }
  }

  /**
   * Exactly the subtree disappears, the parent's list loses the deleted task
   * and keeps the order of the others, and no other task changes.
   */
  lemma DeletedShape(m: Arena, id: TaskId)
    requires WellLinked(m) && id in m
    ensures var r := Deleted(m, id);
            && r.Keys == m.Keys - Subtree(m, id)
            && (forall k :: k in r && Some(k) != m[id].parent ==> r[k] == m[k])
            && (m[id].parent.Some? && m[id].parent.value in r ==>
                  var p := m[id].parent.value;
                  && r[p] == m[p].(subtasks := RemoveFirst(m[p].subtasks, id))
                  && id !in r[p].subtasks)
  {
    var r := Deleted(m, id);
    forall k | k in m
      ensures k in r <==> k !in Subtree(m, id)
    {
      DeletedAt(m, id, k);
    }
    forall k | k in r && Some(k) != m[id].parent
      ensures r[k] == m[k]
    {
      DeletedAt(m, id, k);
    }
    if m[id].parent.Some? && m[id].parent.value in r {
      var p := m[id].parent.value;
      DeletedAt(m, id, p);
      RemoveOnlyOccurrence(m[p].subtasks, id, id);
    }
  }

  /** Delete keeps the ownership invariant. */
  lemma DeleteKeepsLinks(m: Arena, id: TaskId)
    requires WellLinked(m) && id in m
    ensures WellLinked(Deleted(m, id)) && id !in Deleted(m, id)
  {
    DeletedChildrenLinked(m, id);
    DeletedParentsLinked(m, id);
  }

  // ---------------------------------------------------------------- DeleteTask

  /**
   * DeleteTask(t) called on task id: Delete when id is t, otherwise the loop
   * over id's children (starting at position 0).
   */
  function TaskDeletedWithin(m: Arena, id: TaskId, t: TaskId, avail: set<TaskId>): (r: Arena)
    decreases avail, 0, 0
    ensures r.Keys <= m.Keys
    ensures forall k :: k in r ==> |r[k].subtasks| <= |m[k].subtasks|
  {
    if id !in avail || id !in m then m
    else if id == t then Deleted(m, t)
    else TaskDeletedLoop(m, id, t, 0, avail - {id})
  }

  /**
   * The loop of DeleteTask from child position i on, re-reading the child list
   * at every step: a child that is t is deleted and the loop stops; any other
   * child is searched recursively and the loop goes on.
   */
  function TaskDeletedLoop(m: Arena, id: TaskId, t: TaskId, i: nat, avail: set<TaskId>): (r: Arena)
    decreases avail, 1, if id in m && i < |m[id].subtasks| then |m[id].subtasks| - i else 0
    ensures r.Keys <= m.Keys
    ensures forall k :: k in r ==> |r[k].subtasks| <= |m[k].subtasks|
  {
    if id !in m || i >= |m[id].subtasks| then m
    else
      var c := m[id].subtasks[i];
      if c == t then (if c in m then Deleted(m, c) else m)
      else
        var m1 := TaskDeletedWithin(m, c, t, avail);
        TaskDeletedLoop(m1, id, t, i + 1, avail)
  }

  /** When t is not in the searched subtree, DeleteTask changes nothing. */
  lemma {:induction false} TaskNotFoundNoChange(m: Arena, id: TaskId, t: TaskId, avail: set<TaskId>)
    requires t in avail || t !in m
    requires t !in SubtreeWithin(m, id, avail)
    ensures TaskDeletedWithin(m, id, t, avail) == m
    decreases avail, 0, 0
  {
    if id in avail && id in m {
      TaskNotFoundLoop(m, id, t, 0, avail - {id});
    }
  }

  lemma {:induction false} TaskNotFoundLoop(m: Arena, id: TaskId, t: TaskId, i: nat, avail: set<TaskId>)
    requires id in m && i <= |m[id].subtasks|
    requires t in avail || t !in m
    requires t !in SubtreesWithin(m, m[id].subtasks[i..], avail)
    ensures TaskDeletedLoop(m, id, t, i, avail) == m
    decreases avail, 1, |m[id].subtasks| - i
  {
    var ids := m[id].subtasks;
    if i < |ids| {
      var c := ids[i];
      assert ids[i..][1..] == ids[i + 1..];
      assert t !in SubtreeWithin(m, c, avail);
      TaskNotFoundNoChange(m, c, t, avail);
      TaskNotFoundLoop(m, id, t, i + 1, avail);
    }
  }

  /** When t is in the searched subtree, DeleteTask removes it. */
  lemma {:induction false} TaskFoundRemoved(m: Arena, id: TaskId, t: TaskId, avail: set<TaskId>)
    requires t in SubtreeWithin(m, id, avail)
    ensures t !in TaskDeletedWithin(m, id, t, avail)
    decreases avail, 0, 0
  {
    if id != t {
      TaskFoundLoop(m, id, t, 0, avail - {id});
    }
  }

  lemma {:induction false} TaskFoundLoop(m: Arena, id: TaskId, t: TaskId, i: nat, avail: set<TaskId>)
    requires id in m && i <= |m[id].subtasks|
    requires t in SubtreesWithin(m, m[id].subtasks[i..], avail)
    ensures t !in TaskDeletedLoop(m, id, t, i, avail)
    decreases avail, 1, |m[id].subtasks| - i
  {
    var ids := m[id].subtasks;
    assert i < |ids|;
    var c := ids[i];
    assert ids[i..][1..] == ids[i + 1..];
    if c != t {
      var m1 := TaskDeletedWithin(m, c, t, avail);
      if t in SubtreeWithin(m, c, avail) {
        TaskFoundRemoved(m, c, t, avail);
      } else {
        assert t in avail;
        TaskNotFoundNoChange(m, c, t, avail);
        TaskFoundLoop(m, id, t, i + 1, avail);
      }
    } else {
      assert t in SubtreeWithin(m, c, avail);
    }
  }

  /**
   * Under the invariant, when t is in the searched subtree DeleteTask has
   * exactly the effect of Delete on t: the searches before it change nothing,
   * and the searches after it no longer find t.
   */
  lemma {:induction false} TaskFoundDeletes(m: Arena, id: TaskId, t: TaskId, avail: set<TaskId>)
    requires WellLinked(m) && t in SubtreeWithin(m, id, avail)
    ensures TaskDeletedWithin(m, id, t, avail) == Deleted(m, t)
    decreases avail, 0, 0
  {
    if id != t {
      assert m[id].subtasks[0..] == m[id].subtasks;
      TaskFoundLoopDeletes(m, id, t, 0, avail - {id});
    }
  }

  lemma {:induction false} TaskFoundLoopDeletes(m: Arena, id: TaskId, t: TaskId, i: nat, avail: set<TaskId>)
    requires WellLinked(m) && id in m && id !in avail && i <= |m[id].subtasks|
    requires t in SubtreesWithin(m, m[id].subtasks[i..], avail)
    ensures TaskDeletedLoop(m, id, t, i, avail) == Deleted(m, t)
    decreases avail, 1, |m[id].subtasks| - i
  {
    var ids := m[id].subtasks;
    assert i < |ids|;
    var c := ids[i];
    assert ids[i..][1..] == ids[i + 1..];
    if c == t {
      assert c in m[id].subtasks;
    } else if t in SubtreeWithin(m, c, avail) {
      TaskFoundDeletes(m, c, t, avail);
      var m1 := Deleted(m, t);
      SubtreeHasParentInside(m, c, avail, t);
      var y :| y in SubtreeWithin(m, c, avail) && t in m[y].subtasks;
      assert m[t].parent == Some(y) && y != id;
      LoopAfterDeleted(m, id, t, i + 1, avail);
    } else {
      TaskNotFoundNoChange(m, c, t, avail);
      TaskFoundLoopDeletes(m, id, t, i + 1, avail);
    }
  }

  /** Once t is deleted, and t's parent was not id, the rest of id's loop changes nothing. */
  lemma LoopAfterDeleted(m: Arena, id: TaskId, t: TaskId, i: nat, avail: set<TaskId>)
    requires WellLinked(m) && id in m && t in m && m[t].parent != Some(id) && i <= |m[id].subtasks|
    ensures TaskDeletedLoop(Deleted(m, t), id, t, i, avail) == Deleted(m, t)
  {
    var m1 := Deleted(m, t);
    if id in m1 {
      DeletedShape(m, t);
      TaskNotFoundLoop(m1, id, t, i, avail);
    }
  }

  /**
   * DeleteTask from the top: under the invariant it deletes t's subtree when t
   * is below id, and leaves the arena alone otherwise.
   */
  lemma TaskDeletedEffect(m: Arena, id: TaskId, t: TaskId)
    requires WellLinked(m)
    ensures TaskDeletedWithin(m, id, t, m.Keys) == if t in Subtree(m, id) then Deleted(m, t) else m
  {
    if t in Subtree(m, id) {
      TaskFoundDeletes(m, id, t, m.Keys);
    } else {
      TaskNotFoundNoChange(m, id, t, m.Keys);
    }
  }

  /** DeleteTask keeps the ownership invariant. */
  lemma {:induction false} TaskDeletedKeepsLinks(m: Arena, id: TaskId, t: TaskId, avail: set<TaskId>)
    requires WellLinked(m)
    ensures WellLinked(TaskDeletedWithin(m, id, t, avail))
    decreases avail, 0, 0
  {
    if id in avail && id in m {
      if id == t {
        DeleteKeepsLinks(m, t);
      } else {
        TaskDeletedLoopKeepsLinks(m, id, t, 0, avail - {id});
      }
    }
  }

  lemma {:induction false} TaskDeletedLoopKeepsLinks(m: Arena, id: TaskId, t: TaskId, i: nat, avail: set<TaskId>)
    requires WellLinked(m)
    ensures WellLinked(TaskDeletedLoop(m, id, t, i, avail))
    decreases avail, 1, if id in m && i < |m[id].subtasks| then |m[id].subtasks| - i else 0
  {
    if id in m && i < |m[id].subtasks| {
      var c := m[id].subtasks[i];
      if c == t {
        if c in m {
          DeleteKeepsLinks(m, c);
        }
      } else {
        TaskDeletedKeepsLinks(m, c, t, avail);
        TaskDeletedLoopKeepsLinks(TaskDeletedWithin(m, c, t, avail), id, t, i + 1, avail);
      }
    }
  }

  // ---------------------------------------------------------------- other mutations

  /** A change that leaves every child list and parent link alone keeps the invariant. */
  lemma SameShapeKeepsLinks(m1: Arena, m2: Arena)
    requires WellLinked(m1)
    requires m1.Keys == m2.Keys
    requires forall k :: k in m1 ==> m1[k].subtasks == m2[k].subtasks && m1[k].parent == m2[k].parent
    ensures WellLinked(m2)
  {
  }

  /** Replacing one task by a task with the same children and parent keeps the invariant. */
  lemma SameLinksUpdateKeepsLinks(m: Arena, id: TaskId, n: Node)
    requires WellLinked(m) && id in m
    requires n.subtasks == m[id].subtasks && n.parent == m[id].parent
    ensures WellLinked(m[id := n]) && m[id := n].Keys == m.Keys
  {
    SameShapeKeepsLinks(m, m[id := n]);
  }

  /** Reordering one child list (SwapTasks) keeps the invariant. */
  lemma PermutedChildrenKeepLinks(m: Arena, p: TaskId, s: seq<TaskId>)
    requires WellLinked(m) && p in m
    requires multiset(s) == multiset(m[p].subtasks)
    ensures WellLinked(m[p := m[p].(subtasks := s)])
  {
    var r := m[p := m[p].(subtasks := s)];
    forall k, c | k in r && c in r[k].subtasks
      ensures c in r && r[c].parent == Some(k)
    {
      if k == p {
        assert c in multiset(s);
        assert c in m[p].subtasks;
      }
    }
  }

  // ---------------------------------------------------------------- reordering

  /** The arena with p's child list replaced by s. */
  function WithChildren(m: Arena, p: TaskId, s: seq<TaskId>): Arena
    requires p in m
  {
    m[p := m[p].(subtasks := s)]
  }

  /** Replacing a child list twice is replacing it with the second list; replacing it by itself changes nothing. */
  lemma WithChildrenTwice(m: Arena, p: TaskId, s1: seq<TaskId>, s2: seq<TaskId>)
    requires p in m
    ensures WithChildren(WithChildren(m, p, s1), p, s2) == WithChildren(m, p, s2)
    ensures WithChildren(m, p, m[p].subtasks) == m
  {
    assert m[p].(subtasks := m[p].subtasks) == m[p];
  }

  /** SwapTasks(a, b) on p: a and b exchange places in p's list; nothing happens when a is b. */
  function SwappedChildren(m: Arena, p: TaskId, a: TaskId, b: TaskId): Arena
    requires p in m && (a == b || (a in m[p].subtasks && b in m[p].subtasks))
  {
    if a == b then m
    else
      var s := m[p].subtasks;
      WithChildren(m, p, Swapped(s, IndexOf(s, a), IndexOf(s, b)))
  }

  /** SwapTasks keeps the invariant, the tasks, and every filtered view. */
  lemma SwapKeepsLinks(m: Arena, p: TaskId, a: TaskId, b: TaskId)
    requires WellLinked(m) && p in m && (a == b || (a in m[p].subtasks && b in m[p].subtasks))
    ensures var r := SwappedChildren(m, p, a, b);
      && WellLinked(r) && r.Keys == m.Keys
      && multiset(r[p].subtasks) == multiset(m[p].subtasks)
      && forall k :: k in m ==> r[k].filtered == m[k].filtered
  {
    if a != b {
      var s := m[p].subtasks;
      PermutedChildrenKeepLinks(m, p, Swapped(s, IndexOf(s, a), IndexOf(s, b)));
    }
  }

  /** What MoveTaskUp and MoveTaskDown need: t is in p's filtered view, which lists children of p. */
  predicate Movable(m: Arena, p: TaskId, t: TaskId)
  {
    p in m && t in m[p].filtered && forall x :: x in m[p].filtered ==> x in m[p].subtasks
  }

  /**
   * MoveTaskUp(t) on p: t swaps with the task before it in the filtered view;
   * when t heads the view that task is t itself and nothing happens.
   */
  function MovedUp(m: Arena, p: TaskId, t: TaskId): Arena
    requires Movable(m, p, t)
  {
    SwappedChildren(m, p, Above(m[p].filtered, t), t)
  }

  /** MoveTaskDown(t) on p: t swaps with the task after it in the filtered view, if any. */
  function MovedDown(m: Arena, p: TaskId, t: TaskId): Arena
    requires Movable(m, p, t)
  {
    SwappedChildren(m, p, t, Below(m[p].filtered, t))
  }

  /** With A, B and C all visible, moving A down gives B, A, C. */
  lemma MoveDownExample(m: Arena, p: TaskId, a: TaskId, b: TaskId, c: TaskId)
    requires p in m && a != b && b != c && a != c
    requires m[p].subtasks == [a, b, c] && m[p].filtered == [a, b, c]
    ensures Movable(m, p, a) && MovedDown(m, p, a)[p].subtasks == [b, a, c]
  {
  }

  /** Moving a task up or down keeps the invariant, the tasks and every filtered view. */
  lemma MovesKeepLinks(m: Arena, p: TaskId, t: TaskId)
    requires WellLinked(m) && Movable(m, p, t)
    ensures WellLinked(MovedUp(m, p, t)) && MovedUp(m, p, t).Keys == m.Keys
    ensures WellLinked(MovedDown(m, p, t)) && MovedDown(m, p, t).Keys == m.Keys
    ensures forall k :: k in m ==> MovedUp(m, p, t)[k].filtered == m[k].filtered
    ensures forall k :: k in m ==> MovedDown(m, p, t)[k].filtered == m[k].filtered
  {
    SwapKeepsLinks(m, p, Above(m[p].filtered, t), t);
    SwapKeepsLinks(m, p, t, Below(m[p].filtered, t));
  }

  /** Two sequences with the same multiset have the same members. */
  lemma MultisetMembers<T>(a: seq<T>, b: seq<T>)
    requires multiset(a) == multiset(b)
    ensures forall x :: x in a <==> x in b
  {
    forall x
      ensures x in a <==> x in b
    {
      assert x in a <==> x in multiset(a);
    }
  }

  /**
   * When neither p's list nor its filtered view repeats a task, moving t up
   * and then moving down the task it passed restores p's list.
   */
  lemma MoveDownUndoesMoveUp(m: Arena, p: TaskId, t: TaskId)
    requires Movable(m, p, t) && t != m[p].filtered[0]
    requires Distinct(m[p].subtasks) && Distinct(m[p].filtered)
    ensures var prev := Above(m[p].filtered, t);
      Movable(MovedUp(m, p, t), p, prev) && MovedDown(MovedUp(m, p, t), p, prev) == m
  {
    var f, s := m[p].filtered, m[p].subtasks;
    var prev := Above(f, t);
    BelowAbove(f, t);
    var s1 := Swapped(s, IndexOf(s, prev), IndexOf(s, t));
    var m1 := WithChildren(m, p, s1);
    assert MovedUp(m, p, t) == m1;
    MultisetMembers(s1, s);
    assert Movable(m1, p, prev);
    var s2 := Swapped(s1, IndexOf(s1, prev), IndexOf(s1, t));
    assert m1[p].filtered == f && m1[p].subtasks == s1;
    assert MovedDown(m1, p, prev) == WithChildren(m1, p, s2);
    SwapBackRestores(s, prev, t);
    WithChildrenTwice(m, p, s1, s2);
  }

  /** AddSubTask(c) on p: c's parent becomes p, then c is appended to p's list. */
  function Attached(m: Arena, p: TaskId, c: TaskId): Arena
    requires p in m && c in m
  {
    var m1 := m[c := m[c].(parent := Some(p))];
    m1[p := m1[p].(subtasks := m1[p].subtasks + [c])]
  }

  /** What Attached does to one task: c gains parent p, p gains c at the end of its list. */
  lemma AttachedAt(m: Arena, p: TaskId, c: TaskId, k: TaskId)
    requires p in m && c in m && k in m
    ensures var r := Attached(m, p, c);
            && r.Keys == m.Keys
            && r[k].parent == (if k == c then Some(p) else m[k].parent)
            && r[k].subtasks == (if k == p then m[k].subtasks + [c] else m[k].subtasks)
  {
  }

  lemma AttachChildrenLinked(m: Arena, p: TaskId, c: TaskId)
    requires WellLinked(m) && p in m && c in m
    requires m[c].parent.None?
    ensures var r := Attached(m, p, c);
            forall k, x :: k in r && x in r[k].subtasks ==> x in r && r[x].parent == Some(k)
  {
    var r := Attached(m, p, c);
    forall k, x | k in r && x in r[k].subtasks
      ensures x in r && r[x].parent == Some(k)
    {
      AttachedAt(m, p, c, k);
      if x != c {
        assert x in m[k].subtasks;
        AttachedAt(m, p, c, x);
      } else {
        AttachedAt(m, p, c, c);
      }
    }
  }

  lemma AttachParentsLinked(m: Arena, p: TaskId, c: TaskId)
    requires WellLinked(m) && p in m && c in m
    requires m[c].parent.None?
    ensures var r := Attached(m, p, c);
            forall k :: k in r && r[k].parent.Some? ==>
              r[k].parent.value in r && multiset(r[r[k].parent.value].subtasks)[k] == 1
  {
    var r := Attached(m, p, c);
    assert c !in m[p].subtasks;
    forall k | k in r && r[k].parent.Some?
      ensures r[k].parent.value in r && multiset(r[r[k].parent.value].subtasks)[k] == 1
    {
      AttachedAt(m, p, c, k);
      var q := r[k].parent.value;
      AttachedAt(m, p, c, q);
      if k != c {
        assert multiset(m[q].subtasks)[k] == 1;
      }
    }
  }

  /** Attaching a task that has no parent keeps the invariant. */
  lemma AttachKeepsLinks(m: Arena, p: TaskId, c: TaskId)
    requires WellLinked(m) && p in m && c in m
    requires m[c].parent.None?
    ensures WellLinked(Attached(m, p, c))
  {
    AttachChildrenLinked(m, p, c);
    AttachParentsLinked(m, p, c);
  }

  /** A new task with no parent and no children keeps the invariant. */
  lemma FreshTaskKeepsLinks(m: Arena, id: TaskId, n: Node)
    requires WellLinked(m) && id !in m
    requires n.parent.None? && n.subtasks == []
    ensures WellLinked(m[id := n])
  {
  }
}
