/**
 * The Task objects of task.cc as one arena: every task is a Node under its id,
 * and each Task member becomes a method on the arena that names the task it
 * is called on.  Methods state the new arena in terms of the pure effects in
 * Forest, Tasks and TaskCodec, whose properties are proved there.
 */
module Tree {
  import opened Wrappers
  import opened Dates
  import opened Int32Math
  import opened Sequences
  import opened Tasks
  import opened Forest
  import opened Serialization
  import opened TaskCodec

  class TaskTree {
    /** Every live Task, by id. */
    var nodes: Arena
    /** The id the next new Task receives. */
    var next: TaskId

    /** Ids are below `next` and nonzero (0 is NULL), and the parent/child links agree. */
    ghost predicate Valid()
      reads this
    {
      && next > 0
      && (forall k :: k in nodes ==> 0 < k < next)
      && WellLinked(nodes)
    }

    constructor ()
      ensures Valid() && nodes == map[] && next == 1
    {
      nodes := map[];
      next := 1;
    }

    /** Task::Task(title, description) at clock reading `now`. */
    method NewTask(title: string, description: string, now: int) returns (id: TaskId)
      requires Valid()
      modifies this
      ensures Valid()
      ensures id !in old(nodes) && id > 0 && next == old(next) + 1
      ensures nodes == old(nodes)[id := NewNode(title, description, now)]
    {
      id := next;
      FreshTaskKeepsLinks(nodes, id, NewNode(title, description, now));
      nodes := nodes[id := NewNode(title, description, now)];
      next := next + 1;
    }

    // ------------------------------------------------------------ notes

    /** Task::AddNote: a new note dated `now` at the end. */
    method AddNote(id: TaskId, text: string, now: int)
      requires Valid() && id in nodes
      modifies this`nodes
      ensures Valid()
      ensures nodes == old(nodes)[id := old(nodes)[id].(notes := old(nodes)[id].notes + [Note(text, Now(now))])]
    {
      var n := nodes[id];
      SameLinksUpdateKeepsLinks(nodes, id, n.(notes := n.notes + [Note(text, Now(now))]));
      nodes := nodes[id := n.(notes := n.notes + [Note(text, Now(now))])];
    }

    /** Task::HasNotes. */
    method HasNotes(id: TaskId) returns (b: bool)
      requires id in nodes
      ensures b <==> |NoteTexts(nodes[id].notes)| > 0
    {
      b := nodes[id].notes != [];
    }

    /** Task::Notes: the note texts, in note order. */
    method Notes(id: TaskId) returns (texts: seq<string>)
      requires id in nodes
      ensures texts == NoteTexts(nodes[id].notes)
    {
      var ns := nodes[id].notes;
      texts := [];
      for i := 0 to |ns|
        invariant texts == NoteTexts(ns[..i])
      {
        assert ns[..i + 1][..i] == ns[..i];
        texts := texts + [ns[i].text];
      }
      assert ns[..|ns|] == ns;
    }

    /** Task::DeleteNote: the scan remembers the last match, which is then erased. */
    method DeleteNote(id: TaskId, text: string)
      requires Valid() && id in nodes
      modifies this`nodes
      ensures Valid()
      ensures nodes == old(nodes)[id := old(nodes)[id].(notes := DeleteNoteEffect(old(nodes)[id].notes, text))]
    {
      var ns := nodes[id].notes;
      var found, at := FindLastNote(ns, text);
      if found {
        SameLinksUpdateKeepsLinks(nodes, id, nodes[id].(notes := ns[..at] + ns[at + 1..]));
        nodes := nodes[id := nodes[id].(notes := ns[..at] + ns[at + 1..])];
      } else {
        assert nodes[id].(notes := DeleteNoteEffect(ns, text)) == nodes[id];
      }
    }

    // ------------------------------------------------------------ structure

    /**
     * Task::AddSubTask(c) on p: c's parent becomes p and c goes at the end of
     * p's list.  Nothing takes c out of a previous parent's list, so the links
     * stay consistent only when c had no parent.
     */
    method AddSubTask(p: TaskId, c: TaskId)
      requires Valid() && p in nodes && c in nodes
      modifies this`nodes
      ensures nodes == Attached(old(nodes), p, c)
      ensures old(nodes)[c].parent.None? ==> Valid()
    {
      if nodes[c].parent.None? {
        AttachKeepsLinks(nodes, p, c);
      }
      nodes := nodes[c := nodes[c].(parent := Some(p))];
      nodes := nodes[p := nodes[p].(subtasks := nodes[p].subtasks + [c])];
    }

    /** Task::RemoveSubtaskFromList: erase the first occurrence of x, if any. */
    method RemoveSubtaskFromList(p: TaskId, x: TaskId)
      requires p in nodes
      modifies this`nodes
      ensures nodes == old(nodes)[p := old(nodes)[p].(subtasks := RemoveFirst(old(nodes)[p].subtasks, x))]
    {
      var s := nodes[p].subtasks;
      for i := 0 to |s|
        invariant x !in s[..i]
        invariant nodes == old(nodes)
      {
        if s[i] == x {
          IndexOfUnique(s, x, i);
          nodes := nodes[p := nodes[p].(subtasks := s[..i] + s[i + 1..])];
          return;
        }
        assert s[..i + 1] == s[..i] + [s[i]];
      }
      assert s[..|s|] == s;
      assert nodes[p].(subtasks := s) == nodes[p];
    }

    /**
     * Task::Delete: the task leaves its parent's list and its whole subtree is
     * destroyed.
     */
    method Delete(id: TaskId)
      requires Valid() && id in nodes
      modifies this`nodes
      ensures Valid()
      ensures nodes == Deleted(old(nodes), id)
    {
      var doomed := Subtree(nodes, id);
      DeleteKeepsLinks(nodes, id);
      if nodes[id].parent.Some? && nodes[id].parent.value in nodes {
        RemoveSubtaskFromList(nodes[id].parent.value, id);
      }
      nodes := map k | k in nodes && k !in doomed :: nodes[k];
    }

    /** Task::DeleteTask(t) on root. */
    method DeleteTask(root: TaskId, t: TaskId)
      requires Valid()
      modifies this`nodes
      ensures Valid()
      ensures nodes == TaskDeletedWithin(old(nodes), root, t, old(nodes).Keys)
      ensures nodes == if t in Subtree(old(nodes), root) then Deleted(old(nodes), t) else old(nodes)
    {
      TaskDeletedEffect(nodes, root, t);
      DeleteTaskIn(root, t, nodes.Keys);
    }

    /**
     * DeleteTask on id, with `avail` the tasks not yet entered on the way down
     * (all of them at the top).  In a tree it never stops a descent.
     */
    method DeleteTaskIn(id: TaskId, t: TaskId, avail: set<TaskId>)
      requires Valid()
      modifies this`nodes
      ensures Valid()
      ensures nodes == TaskDeletedWithin(old(nodes), id, t, avail)
      decreases avail
    {
      if id !in avail || id !in nodes {
        return;
      }
      if id == t {
        Delete(t);
        return;
      }
      var i := 0;
      while id in nodes && i < |nodes[id].subtasks|
        invariant Valid()
        invariant TaskDeletedLoop(nodes, id, t, i, avail - {id}) == TaskDeletedWithin(old(nodes), id, t, avail)
        decreases if id in nodes && i < |nodes[id].subtasks| then |nodes[id].subtasks| - i else 0
      {
        var c := nodes[id].subtasks[i];
        if c == t {
          if c in nodes {
            Delete(c);
          }
          return;
        }
        DeleteTaskIn(c, t, avail - {id});
        i := i + 1;
      }
    }

    /**
     * Task::SwapTasks on p: exchange a and b in p's child list.  Both must be
     * listed; with only one present the source writes past the end.
     */
    method SwapTasks(p: TaskId, a: TaskId, b: TaskId)
      requires Valid() && p in nodes
      requires a == b || (a in nodes[p].subtasks && b in nodes[p].subtasks)
      modifies this`nodes
      ensures Valid()
      ensures nodes == SwappedChildren(old(nodes), p, a, b)
    {
      if a == b {
        return;
      }
      var s := nodes[p].subtasks;
      var ai := Find(s, a);
      var bi := Find(s, b);
      SwapKeepsLinks(nodes, p, a, b);
      nodes := WithChildren(nodes, p, Swapped(s, ai, bi));
    }

    /**
     * Task::MoveTaskUp(t) on p: unless t heads the filtered view, swap t with
     * the task before it in that view.  The view must hold t and list only
     * children of p.
     */
    method MoveTaskUp(p: TaskId, t: TaskId)
      requires Valid() && Movable(nodes, p, t)
      modifies this`nodes
      ensures Valid()
      ensures nodes == MovedUp(old(nodes), p, t)
    {
      var f := nodes[p].filtered;
      if t == f[0] {
        return;
      }
      var it := Find(f, t);
      var prev := f[it - 1];
      SwapTasks(p, prev, t);
    }

    /** Task::MoveTaskDown(t) on p: unless t ends the filtered view, swap t with the task after it. */
    method MoveTaskDown(p: TaskId, t: TaskId)
      requires Valid() && Movable(nodes, p, t)
      modifies this`nodes
      ensures Valid()
      ensures nodes == MovedDown(old(nodes), p, t)
    {
      var f := nodes[p].filtered;
      if t == f[|f| - 1] {
        return;
      }
      var it := Find(f, t);
      var after := f[it + 1];
      SwapTasks(p, t, after);
    }

    /** Task::MoveUp: MoveTaskUp on the parent; nothing for a task without one. */
    method MoveUp(id: TaskId)
      requires Valid() && id in nodes
      requires nodes[id].parent.Some? ==> Movable(nodes, nodes[id].parent.value, id)
      modifies this`nodes
      ensures Valid()
      ensures nodes == if old(nodes)[id].parent.None? then old(nodes)
                       else MovedUp(old(nodes), old(nodes)[id].parent.value, id)
    {
      if nodes[id].parent.Some? {
        MoveTaskUp(nodes[id].parent.value, id);
      }
    }

    /** Task::MoveDown: MoveTaskDown on the parent; nothing for a task without one. */
    method MoveDown(id: TaskId)
      requires Valid() && id in nodes
      requires nodes[id].parent.Some? ==> Movable(nodes, nodes[id].parent.value, id)
      modifies this`nodes
      ensures Valid()
      ensures nodes == if old(nodes)[id].parent.None? then old(nodes)
                       else MovedDown(old(nodes), old(nodes)[id].parent.value, id)
    {
      if nodes[id].parent.Some? {
        MoveTaskDown(nodes[id].parent.value, id);
      }
    }

    // ------------------------------------------------------------ filtering

    /** Task::ApplyFilter(keep) on id: children first, in order, then id's own view. */
    method ApplyFilter(id: TaskId, keep: Node -> bool)
      requires Valid()
      modifies this`nodes
      ensures Valid()
      ensures nodes == Refiltered(old(nodes), id, keep, old(nodes).Keys)
    {
      ApplyFilterIn(id, keep, nodes.Keys);
      SameShapeKeepsLinks(old(nodes), nodes);
    }

    method ApplyFilterIn(id: TaskId, keep: Node -> bool, avail: set<TaskId>)
      modifies this`nodes
      ensures nodes == Refiltered(old(nodes), id, keep, avail)
      decreases avail
    {
      if id !in avail || id !in nodes {
        return;
      }
      var kids := nodes[id].subtasks;
      for i := 0 to |kids|
        invariant RefilteredAll(nodes, kids[i..], keep, avail - {id}) == RefilteredAll(old(nodes), kids, keep, avail - {id})
      {
        assert kids[i..][1..] == kids[i + 1..];
        ApplyFilterIn(kids[i], keep, avail - {id});
      }
      nodes := nodes[id := nodes[id].(filtered := FilterIds(nodes[id].subtasks, nodes, keep))];
    }

    /** Task::NumFilteredChildren. */
    function NumFilteredChildren(id: TaskId): (r: nat)
      reads this
      requires id in nodes
      ensures r <= NumFilteredOffspring(nodes, id)
    {
      |nodes[id].filtered|
    }

    /** Task::FilteredChild(c): a task of the view, and a child of id once the view is fresh. */
    function FilteredChild(id: TaskId, c: nat): (r: TaskId)
      reads this
      requires id in nodes && c < NumFilteredChildren(id)
      ensures r in nodes[id].filtered
      ensures IsSubseq(nodes[id].filtered, nodes[id].subtasks) ==> r in nodes[id].subtasks
    {
      SubseqMembers(nodes[id].filtered, nodes[id].subtasks, nodes[id].filtered[c]);
      nodes[id].filtered[c]
    }

    // ------------------------------------------------------------ status

    /** Task::SetStatus(t) at clock reading `now`. */
    method SetStatus(id: TaskId, t: TaskStatus, now: int)
      requires Valid() && id in nodes
      modifies this`nodes
      ensures Valid()
      ensures nodes == old(nodes)[id := SetStatusEffect(old(nodes)[id], t, now)]
    {
      var n := nodes[id];
      if n.status == Created && t == InProgress {
        n := n.(start := Now(now));
      } else if t == Completed && n.status != Completed {
        n := n.(completion := Now(now));
      } else if t == Paused && n.status != Paused {
        n := n.(completion := EmptyTime);
      }
      if t == InProgress {
        n := n.(completion := EmptyTime);
      }
      n := n.(status := t);
      n := n.(history := n.history + [StatusChange(Now(now), StatusCode(t))]);
      assert n == SetStatusEffect(nodes[id], t, now);
      SameLinksUpdateKeepsLinks(nodes, id, n);
      nodes := nodes[id := n];
    }

    // ------------------------------------------------------------ serialisation

    /** Task::Serialize on id: its record, then its children's trees in order. */
    method Serialize(id: TaskId, s: Serializer)
      modifies s`tokens
      ensures s.tokens == old(s.tokens) + EncodeTreeWithin(nodes, id, s.version, nodes.Keys)
    {
      SerializeIn(id, s, nodes.Keys);
    }

    method SerializeIn(id: TaskId, s: Serializer, avail: set<TaskId>)
      modifies s`tokens
      ensures s.tokens == old(s.tokens) + EncodeTreeWithin(nodes, id, s.version, avail)
      decreases avail, 0
    {
      if id !in avail || id !in nodes {
        return;
      }
      WriteNode(s, id, nodes[id]);
      SerializeChildren(nodes[id].subtasks, s, avail - {id});
    }

    /** The loop of Task::Serialize over the children, each serialised in turn. */
    method SerializeChildren(ids: seq<TaskId>, s: Serializer, avail: set<TaskId>)
      modifies s`tokens
      ensures s.tokens == old(s.tokens) + EncodeForestWithin(nodes, ids, s.version, avail)
      decreases avail, 1
    {
      for i := 0 to |ids|
        invariant s.tokens == old(s.tokens) + EncodeForestWithin(nodes, ids[..i], s.version, avail)
      {
        assert ids[..i + 1][..i] == ids[..i];
        SerializeIn(ids[i], s, avail);
      }
      assert ids[..|ids|] == ids;
    }

    /**
     * Task::UnSerializeFromSerializer on id: status and dates are replaced, read
     * notes and history entries are appended.  On a failed read only those
     * fields of id may have changed.
     */
    method UnSerializeFromSerializer(id: TaskId, s: Serializer)
      requires Valid() && id in nodes
      modifies this`nodes, s`pos, s`failed
      ensures Valid()
      ensures var d := DecodeBody(s.tokens, old(s.pos), s.version);
        if !old(s.failed) && d.Some? then
          && !s.failed && s.pos == d.value.1
          && nodes == old(nodes)[id := ReadInto(old(nodes)[id], d.value.0)]
        else
          && s.failed && id in nodes
          && nodes == old(nodes)[id := nodes[id]]
          && SameApartFromBody(nodes[id], old(nodes)[id])
    {
      var b := ReadBody(s);
      var n := ReadInto(nodes[id], b);
      SameLinksUpdateKeepsLinks(nodes, id, n);
      nodes := nodes[id := n];
    }

    /**
     * Task::NewTaskFromSerializer: title and description, a new task made from
     * them at `now`, then the body read into it.
     */
    method NewTaskFromSerializer(s: Serializer, now: int) returns (id: TaskId)
      requires Valid()
      modifies this, s`pos, s`failed
      ensures Valid()
      ensures id !in old(nodes) && id > 0 && id in nodes && nodes == old(nodes)[id := nodes[id]]
      ensures var d := DecodeTask(s.tokens, old(s.pos), s.version);
        if !old(s.failed) && d.Some? then
          var b := d.value.2;
          && !s.failed && s.pos == d.value.3
          && nodes[id] == Node(d.value.0, d.value.1, b.status, b.creation, b.start, b.completion,
                               b.notes, b.history, [], None, [])
        else s.failed
    {
      ghost var p0 := s.pos;
      var title := s.ReadString();
      var description := s.ReadString();
      ghost var p2, f2 := s.pos, s.failed;
      ghost var d := DecodeTask(s.tokens, p0, s.version);
      assert !old(s.failed) && d.Some? ==>
               && !f2 && d.value.0 == title && d.value.1 == description
               && DecodeBody(s.tokens, p2, s.version) == Some((d.value.2, d.value.3));
      assert !(!old(s.failed) && d.Some?) ==> f2 || DecodeBody(s.tokens, p2, s.version).None?;
      id := NewTask(title, description, now);
      UnSerializeFromSerializer(id, s);
      if !old(s.failed) && d.Some? {
        ReadIntoNew(title, description, now, d.value.2);
      }
    }
  }
}
