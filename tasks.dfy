/**
 * The per-task state of task.cc: status, the three dates, the notes, the
 * status-change history, and the pure effect of SetStatus and DeleteNote on it.
 */
module Tasks {
  import opened Wrappers
  import opened Dates
  import opened Int32Math
  import opened Sequences

  /** Identity of a task in the arena; stands for the Task* pointer.  0 is NULL. */
  type TaskId = nat

  /** TaskStatus, numbered in declaration order (task.h is not part of this model). */
  datatype TaskStatus = Created | InProgress | Paused | Completed

  /** The integer a TaskStatus converts to (`static_cast<int32>(status_)`). */
  function StatusCode(t: TaskStatus): int
  {
    match t
    case Created => 0
    case InProgress => 1
    case Paused => 2
    case Completed => 3
  }

  /** The enumerator an integer names, if any. */
  function StatusFromCode(c: int): (r: Option<TaskStatus>)
    ensures r.Some? <==> 0 <= c < 4
    ensures r.Some? ==> StatusCode(r.value) == c
  {
    if c == 0 then Some(Created)
    else if c == 1 then Some(InProgress)
    else if c == 2 then Some(Paused)
    else if c == 3 then Some(Completed)
    else None
  }

  /** A note: its text and the date it was made (note.h is not part of this model). */
  datatype Note = Note(text: string, created: Date)

  /** One entry of the status-change record: when, and the status as an integer. */
  datatype StatusChange = StatusChange(date: Date, status: Int32)

  /**
   * The fields of one Task.  `subtasks` is the owned, canonical child list,
   * `parent` the non-owning back link (None for NULL), and `filtered` the
   * derived view that ApplyFilter rebuilds; it may be stale after a mutation.
   */
  datatype Node = Node(
    title: string,
    description: string,
    status: TaskStatus,
    creation: Date,
    start: Date,
    completion: Date,
    notes: seq<Note>,
    history: seq<StatusChange>,
    subtasks: seq<TaskId>,
    parent: Option<TaskId>,
    filtered: seq<TaskId>)

  /** A task as Task::Task(title, description) makes it at clock reading `now`: created, no links. */
  function NewNode(title: string, description: string, now: int): Node
  {
    Node(title, description, Created, Now(now), EmptyTime, EmptyTime, [], [], [], None, [])
  }

  /**
   * The task after SetStatus(t) at clock reading `now`.  The start date moves only
   * on CREATED -> IN_PROGRESS; the completion date is set on entering COMPLETED
   * and cleared on entering PAUSED or on any IN_PROGRESS; every call records
   * exactly one history entry, also when t equals the current status.
   */
  function SetStatusEffect(n: Node, t: TaskStatus, now: int): (r: Node)
    ensures r.status == t
    ensures r.history == n.history + [StatusChange(Now(now), StatusCode(t))]
    ensures n.status == Created && t == InProgress ==> r.start == Now(now)
    ensures r.start != n.start ==> n.status == Created && t == InProgress
    ensures t == Completed && n.status != Completed ==> r.completion == Now(now)
    ensures t == InProgress || (t == Paused && n.status != Paused) ==> r.completion == EmptyTime
    ensures r.completion != n.completion ==>
              (t == Completed && n.status != Completed) || t == InProgress || (t == Paused && n.status != Paused)
    ensures r == n.(status := t, start := r.start, completion := r.completion, history := r.history)
  {
    var start := if n.status == Created && t == InProgress then Now(now) else n.start;
    var completion :=
      if n.status == Created && t == InProgress then n.completion
      else if t == Completed && n.status != Completed then Now(now)
      else if t == Paused && n.status != Paused then EmptyTime
      else n.completion;
    var completion' := if t == InProgress then EmptyTime else completion;
    n.(status := t, start := start, completion := completion',
       history := n.history + [StatusChange(Now(now), StatusCode(t))])
  }

  /** SetStatus(COMPLETED) followed by SetStatus(PAUSED) leaves the completion date empty. */
  lemma CompleteThenPauseClears(n: Node, t1: int, t2: int)
    ensures SetStatusEffect(SetStatusEffect(n, Completed, t1), Paused, t2).completion == EmptyTime
  {
  }

  /** Once a task has left CREATED, a later IN_PROGRESS never moves its start date. */
  lemma RestartKeepsStart(n: Node, now: int)
    requires n.status != Created
    ensures SetStatusEffect(n, InProgress, now).start == n.start
  {
  }

  /** The note texts in note order: what Notes() returns. */
  function NoteTexts(ns: seq<Note>): (r: seq<string>)
    ensures |r| == |ns|
  {
    if ns == [] then [] else NoteTexts(ns[..|ns| - 1]) + [ns[|ns| - 1].text]
  }

  /** The i-th text is the i-th note's text. */
  lemma {:induction false} NoteTextsAt(ns: seq<Note>, i: nat)
    requires i < |ns|
    ensures NoteTexts(ns)[i] == ns[i].text
  {
    if i < |ns| - 1 {
      NoteTextsAt(ns[..|ns| - 1], i);
    }
  }

  /** NoteTexts distributes over concatenation. */
  lemma {:induction false} NoteTextsConcat(a: seq<Note>, b: seq<Note>)
    ensures NoteTexts(a + b) == NoteTexts(a) + NoteTexts(b)
  {
    if b != [] {
      assert (a + b)[..|a + b| - 1] == a + b[..|b| - 1];
      NoteTextsConcat(a, b[..|b| - 1]);
    } else {
      assert a + b == a;
    }
  }

  /** The index of the last note whose text is `text`, or -1 when there is none. */
  function LastNoteWithText(ns: seq<Note>, text: string): (r: int)
    ensures -1 <= r < |ns|
    ensures r == -1 <==> forall i :: 0 <= i < |ns| ==> ns[i].text != text
    ensures r >= 0 ==> ns[r].text == text && forall i :: r < i < |ns| ==> ns[i].text != text
  {
    if ns == [] then -1
    else if ns[|ns| - 1].text == text then |ns| - 1
    else LastNoteWithText(ns[..|ns| - 1], text)
  }

  /** The scan of DeleteNote: every match overwrites the remembered position, so the last one stays. */
  method FindLastNote(ns: seq<Note>, text: string) returns (found: bool, at: nat)
    ensures found <==> exists i :: 0 <= i < |ns| && ns[i].text == text
    ensures found ==> at == LastNoteWithText(ns, text)
  {
    found, at := false, 0;
    for i := 0 to |ns|
      invariant found <==> LastNoteWithText(ns[..i], text) >= 0
      invariant found ==> at == LastNoteWithText(ns[..i], text)
    {
      assert ns[..i + 1][..i] == ns[..i];
      if ns[i].text == text {
        found, at := true, i;
      }
    }
    assert ns[..|ns|] == ns;
  }

  /** The notes after DeleteNote(text): the last note with that text erased, or unchanged. */
  function DeleteNoteEffect(ns: seq<Note>, text: string): seq<Note>
  {
    var k := LastNoteWithText(ns, text);
    if k < 0 then ns else ns[..k] + ns[k + 1..]
  }

  /** DeleteNote changes nothing when no note has the given text. */
  lemma DeleteNoteAbsent(ns: seq<Note>, text: string)
    requires forall i :: 0 <= i < |ns| ==> ns[i].text != text
    ensures DeleteNoteEffect(ns, text) == ns
  {
  }

  /**
   * DeleteNote removes exactly one note with the given text when there is one:
   * every other text keeps its number of notes.
   */
  lemma DeleteNoteRemovesOne(ns: seq<Note>, text: string, other: string)
    ensures (exists i :: 0 <= i < |ns| && ns[i].text == text) ==>
              && |DeleteNoteEffect(ns, text)| == |ns| - 1
              && multiset(NoteTexts(DeleteNoteEffect(ns, text)))[text] + 1 == multiset(NoteTexts(ns))[text]
              && (other != text ==>
                    multiset(NoteTexts(DeleteNoteEffect(ns, text)))[other] == multiset(NoteTexts(ns))[other])
  {
    var k := LastNoteWithText(ns, text);
    if k >= 0 {
      var e := DeleteNoteEffect(ns, text);
      assert e == ns[..k] + ns[k + 1..];
      DeletedNoteTexts(ns, k);
      var a, b := NoteTexts(ns[..k]), NoteTexts(ns[k + 1..]);
      ErasedCount(NoteTexts(ns), NoteTexts(e), a, text, b, text);
      ErasedCount(NoteTexts(ns), NoteTexts(e), a, text, b, other);
    }
  }

  /** Erasing one entry x lowers the count of x by one and keeps every other count. */
  lemma ErasedCount<T>(s: seq<T>, r: seq<T>, a: seq<T>, x: T, b: seq<T>, y: T)
    requires s == a + [x] + b && r == a + b
    ensures multiset(s)[y] == multiset(r)[y] + (if y == x then 1 else 0)
  {
    assert multiset(s) == multiset(r) + multiset{x};
  }

  /** Erasing the note at k erases its text at k from the text list. */
  lemma DeletedNoteTexts(ns: seq<Note>, k: nat)
    requires k < |ns|
    ensures NoteTexts(ns) == NoteTexts(ns[..k]) + [ns[k].text] + NoteTexts(ns[k + 1..])
    ensures NoteTexts(ns[..k] + ns[k + 1..]) == NoteTexts(ns[..k]) + NoteTexts(ns[k + 1..])
  {
    var pre, post := ns[..k], ns[k + 1..];
    SplitAt(ns, k);
    NoteTextsConcat(pre + [ns[k]], post);
    NoteTextsConcat(pre, [ns[k]]);
    NoteTextsConcat(pre, post);
    assert NoteTexts([ns[k]]) == [ns[k].text];
  }

  /** The example of a task with notes x, y, x: deleting "x" leaves x, y. */
  lemma DeleteNoteExample(a: Date, b: Date, c: Date)
    ensures NoteTexts(DeleteNoteEffect([Note("x", a), Note("y", b), Note("x", c)], "x")) == ["x", "y"]
  {
    var ns := [Note("x", a), Note("y", b), Note("x", c)];
    assert LastNoteWithText(ns, "x") == 2;
    assert DeleteNoteEffect(ns, "x") == [Note("x", a), Note("y", b)];
  }
}
