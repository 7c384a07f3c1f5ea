/**
 * The positional, version-gated layout Task::Serialize writes and
 * Task::UnSerializeFromSerializer reads, as pure functions over the token
 * stream, with the methods that write and read it through a Serializer.
 */
module TaskCodec {
  import opened Wrappers
  import opened Dates
  import opened Int32Math
  import opened Tasks
  import opened Forest
  import opened Serialization

  /** Stream versions that introduced notes and the status history (file-versions.h is not part of this model). */
  const NOTES_VERSION: int := 2
  const TASK_STATUS_VERSION: int := 3

  /** The part of a task written between its description and its parent id. */
  datatype Body = Body(status: TaskStatus, creation: Date, start: Date, completion: Date,
                       notes: seq<Note>, history: seq<StatusChange>)

  function BodyOf(n: Node): Body
  {
    Body(n.status, n.creation, n.start, n.completion, n.notes, n.history)
  }

  /** A task after a body is read into it: status and dates replaced, notes and history appended. */
  function ReadInto(n: Node, b: Body): Node
  {
    n.(status := b.status, creation := b.creation, start := b.start, completion := b.completion,
       notes := n.notes + b.notes, history := n.history + b.history)
  }

  /** Reading a body into a new task gives the task that body describes. */
  lemma ReadIntoNew(title: string, description: string, now: int, b: Body)
    ensures ReadInto(NewNode(title, description, now), b)
         == Node(title, description, b.status, b.creation, b.start, b.completion, b.notes, b.history, [], None, [])
  {
    assert [] + b.notes == b.notes && [] + b.history == b.history;
  }

  /** Two tasks that can differ only in what reading a body changes. */
  predicate SameApartFromBody(a: Node, b: Node)
  {
    && a.title == b.title && a.description == b.description
    && a.subtasks == b.subtasks && a.parent == b.parent && a.filtered == b.filtered
  }

  /** The notes a stream of version v carries: none before the notes version. */
  function CarriedNotes(ns: seq<Note>, v: int): seq<Note>
  {
    if v >= NOTES_VERSION then ns else []
  }

  /** The status history a stream of version v carries: none before the status-history version. */
  function CarriedHistory(cs: seq<StatusChange>, v: int): seq<StatusChange>
  {
    if v >= TASK_STATUS_VERSION then cs else []
  }

  /** What a stream of version v can carry of a body: no notes, no history before their versions. */
  function Visible(b: Body, v: int): (r: Body)
    ensures r.notes == (if v >= NOTES_VERSION then b.notes else [])
    ensures r.history == (if v >= TASK_STATUS_VERSION then b.history else [])
    ensures r.(notes := b.notes, history := b.history) == b
  {
    Body(b.status, b.creation, b.start, b.completion, CarriedNotes(b.notes, v), CarriedHistory(b.history, v))
  }

  // ---------------------------------------------------------------- encoding

  /** Note::Serialize: text, then creation date. */
  function EncodeNote(n: Note): seq<Token>
  {
    [Str(n.text), DateTok(n.created)]
  }

  function EncodeNotes(ns: seq<Note>): (r: seq<Token>)
    ensures |r| == 2 * |ns|
  {
    if ns == [] then [] else EncodeNotes(ns[..|ns| - 1]) + EncodeNote(ns[|ns| - 1])
  }

  function EncodeChange(c: StatusChange): seq<Token>
  {
    [DateTok(c.date), I32(c.status)]
  }

  function EncodeChanges(cs: seq<StatusChange>): (r: seq<Token>)
    ensures |r| == 2 * |cs|
  {
    if cs == [] then [] else EncodeChanges(cs[..|cs| - 1]) + EncodeChange(cs[|cs| - 1])
  }

  /** The notes section: a 32-bit count (the size converted to int32), then each note. */
  function EncodeNotesSection(ns: seq<Note>, v: int): seq<Token>
  {
    if v >= NOTES_VERSION then [I32(ToInt32(|ns|))] + EncodeNotes(ns) else []
  }

  function EncodeChangesSection(cs: seq<StatusChange>, v: int): seq<Token>
  {
    if v >= TASK_STATUS_VERSION then [I32(ToInt32(|cs|))] + EncodeChanges(cs) else []
  }

  /** The first four tokens of a body: its status code and three dates. */
  function BodyHead(b: Body): seq<Token>
  {
    [I32(StatusCode(b.status)), DateTok(b.creation), DateTok(b.start), DateTok(b.completion)]
  }

  function EncodeBody(b: Body, v: int): seq<Token>
  {
    BodyHead(b) + EncodeNotesSection(b.notes, v) + EncodeChangesSection(b.history, v)
  }

  /** The 64-bit word written for a parent link; NULL is 0. */
  function ParentWord(p: Option<TaskId>): nat
  {
    match p
    case None => 0
    case Some(q) => q
  }

  /** One task's record in the stream: id, title, description, body, parent id. */
  function EncodeNode(id: TaskId, n: Node, v: int): seq<Token>
  {
    [U64(id), Str(n.title), Str(n.description)] + EncodeBody(BodyOf(n), v) + [U64(ParentWord(n.parent))]
  }

  /** Task::Serialize on the task id: its record, then each child's tree in order. */
  function EncodeTreeWithin(m: Arena, id: TaskId, v: int, avail: set<TaskId>): seq<Token>
    decreases avail, 0
  {
    if id in avail && id in m then
      EncodeNode(id, m[id], v) + EncodeForestWithin(m, m[id].subtasks, v, avail - {id})
    else []
  }

  function EncodeForestWithin(m: Arena, ids: seq<TaskId>, v: int, avail: set<TaskId>): seq<Token>
    decreases avail, 1, |ids|
  {
    if ids == [] then []
    else EncodeForestWithin(m, ids[..|ids| - 1], v, avail) + EncodeTreeWithin(m, ids[|ids| - 1], v, avail)
  }

  // ---------------------------------------------------------------- decoding

  /** Note::ReadFromSerializer at position pos. */
  function NoteAt(toks: seq<Token>, pos: nat): Option<(Note, nat)>
  {
    match StringAt(toks, pos)
    case None => None
    case Some((text, p)) =>
      match DateAt(toks, p)
      case None => None
      case Some((d, q)) => Some((Note(text, d), q))
  }

  /** The first `count` notes from position pos. */
  function DecodeNotes(toks: seq<Token>, pos: nat, count: nat): (r: Option<(seq<Note>, nat)>)
    ensures r.Some? ==> |r.value.0| == count && pos <= r.value.1
    ensures r.Some? && pos <= |toks| ==> r.value.1 <= |toks|
  {
    if count == 0 then Some(([], pos))
    else
      match DecodeNotes(toks, pos, count - 1)
      case None => None
      case Some((ns, p)) =>
        match NoteAt(toks, p)
        case None => None
        case Some((n, q)) => Some((ns + [n], q))
  }

  function ChangeAt(toks: seq<Token>, pos: nat): Option<(StatusChange, nat)>
  {
    match DateAt(toks, pos)
    case None => None
    case Some((d, p)) =>
      match Int32At(toks, p)
      case None => None
      case Some((st, q)) => Some((StatusChange(d, st), q))
  }

  function DecodeChanges(toks: seq<Token>, pos: nat, count: nat): (r: Option<(seq<StatusChange>, nat)>)
    ensures r.Some? ==> |r.value.0| == count && pos <= r.value.1
    ensures r.Some? && pos <= |toks| ==> r.value.1 <= |toks|
  {
    if count == 0 then Some(([], pos))
    else
      match DecodeChanges(toks, pos, count - 1)
      case None => None
      case Some((cs, p)) =>
        match ChangeAt(toks, p)
        case None => None
        case Some((c, q)) => Some((cs + [c], q))
  }

  /** A count read from the stream bounds a `for (int i = 0; i < count; ++i)` loop. */
  function LoopCount(c: int): nat
  {
    if c < 0 then 0 else c
  }

  function DecodeNotesSection(toks: seq<Token>, pos: nat, v: int): (r: Option<(seq<Note>, nat)>)
    ensures r.Some? ==> pos <= r.value.1
    ensures r.Some? && pos <= |toks| ==> r.value.1 <= |toks|
  {
    if v >= NOTES_VERSION then
      match Int32At(toks, pos)
      case None => None
      case Some((c, p)) => DecodeNotes(toks, p, LoopCount(c))
    else Some(([], pos))
  }

  function DecodeChangesSection(toks: seq<Token>, pos: nat, v: int): (r: Option<(seq<StatusChange>, nat)>)
    ensures r.Some? ==> pos <= r.value.1
    ensures r.Some? && pos <= |toks| ==> r.value.1 <= |toks|
  {
    if v >= TASK_STATUS_VERSION then
      match Int32At(toks, pos)
      case None => None
      case Some((c, p)) => DecodeChanges(toks, p, LoopCount(c))
    else Some(([], pos))
  }

  /** Task::UnSerializeFromSerializer: status, three dates, then the gated sections. */
  function DecodeBody(toks: seq<Token>, pos: nat, v: int): (r: Option<(Body, nat)>)
    ensures r.Some? ==> pos < r.value.1 <= |toks|
  {
    match Int32At(toks, pos)
    case None => None
    case Some((code, p1)) =>
      match StatusFromCode(code)
      case None => None
      case Some(st) =>
        match DateAt(toks, p1)
        case None => None
        case Some((created, p2)) =>
          match DateAt(toks, p2)
          case None => None
          case Some((started, p3)) =>
            match DateAt(toks, p3)
            case None => None
            case Some((completed, p4)) =>
              match DecodeNotesSection(toks, p4, v)
              case None => None
              case Some((ns, p5)) =>
                match DecodeChangesSection(toks, p5, v)
                case None => None
                case Some((cs, p6)) => Some((Body(st, created, started, completed, ns, cs), p6))
  }

  /** Task::NewTaskFromSerializer: title, description, then the body. */
  function DecodeTask(toks: seq<Token>, pos: nat, v: int): (r: Option<(string, string, Body, nat)>)
    ensures r.Some? ==> pos < r.value.3 <= |toks|
  {
    match StringAt(toks, pos)
    case None => None
    case Some((title, p1)) =>
      match StringAt(toks, p1)
      case None => None
      case Some((desc, p2)) =>
        match DecodeBody(toks, p2, v)
        case None => None
        case Some((b, p3)) => Some((title, desc, b, p3))
  }

  // ---------------------------------------------------------------- round trips

  /** The tokens e occur in toks from position p on. */
  predicate Occurs(toks: seq<Token>, p: nat, e: seq<Token>)
  {
    p + |e| <= |toks| && OccursFrom(toks, p, e)
  }

  /** Token by token: the first token of e is at p and the rest occur from p + 1. */
  predicate OccursFrom(toks: seq<Token>, p: nat, e: seq<Token>)
    decreases |e|
  {
    e == [] || (p < |toks| && toks[p] == e[0] && OccursFrom(toks, p + 1, e[1..]))
  }

  /** Each token of an occurrence is the token at its offset. */
  lemma {:induction false} OccursAt(toks: seq<Token>, p: nat, e: seq<Token>, i: nat)
    requires OccursFrom(toks, p, e) && i < |e|
    ensures p + i < |toks| && toks[p + i] == e[i]
    decreases i
  {
    if i > 0 {
      OccursAt(toks, p + 1, e[1..], i - 1);
    }
  }

  /** Whatever comes before and after, an encoding occurs right after its prefix. */
  lemma {:induction false} OccursBetween(pre: seq<Token>, e: seq<Token>, post: seq<Token>)
    ensures Occurs(pre + e + post, |pre|, e)
    decreases |e|
  {
    if e != [] {
      assert pre + e + post == (pre + [e[0]]) + e[1..] + post;
      OccursBetween(pre + [e[0]], e[1..], post);
    }
  }

  /** Where a + b occurs, a occurs and b follows it. */
  lemma OccursSplit(toks: seq<Token>, p: nat, a: seq<Token>, b: seq<Token>)
    requires Occurs(toks, p, a + b)
    ensures Occurs(toks, p, a) && Occurs(toks, p + |a|, b)
  {
    OccursFromSplit(toks, p, a, b);
  }

  lemma {:induction false} OccursFromSplit(toks: seq<Token>, p: nat, a: seq<Token>, b: seq<Token>)
    requires OccursFrom(toks, p, a + b)
    ensures OccursFrom(toks, p, a) && OccursFrom(toks, p + |a|, b)
    decreases |a|
  {
    if a == [] {
      assert a + b == b;
    } else {
      assert (a + b)[1..] == a[1..] + b;
      OccursFromSplit(toks, p + 1, a[1..], b);
    }
  }

  /** Reading back `|ns|` notes where they were written yields the same notes, in order. */
  lemma {:induction false} NotesRoundTrip(toks: seq<Token>, p: nat, ns: seq<Note>)
    requires Occurs(toks, p, EncodeNotes(ns))
    ensures DecodeNotes(toks, p, |ns|) == Some((ns, p + 2 * |ns|))
  {
    if ns != [] {
      var init, n := ns[..|ns| - 1], ns[|ns| - 1];
      OccursSplit(toks, p, EncodeNotes(init), EncodeNote(n));
      NotesRoundTrip(toks, p, init);
      NoteRoundTrip(toks, p + 2 * |init|, n);
      assert init + [n] == ns;
    }
  }

  /** One note reads back where it was written. */
  lemma {:induction false} NoteRoundTrip(toks: seq<Token>, q: nat, n: Note)
    requires Occurs(toks, q, EncodeNote(n))
    ensures NoteAt(toks, q) == Some((n, q + 2))
  {
    OccursAt(toks, q, EncodeNote(n), 0);
    OccursAt(toks, q, EncodeNote(n), 1);
  }

  lemma {:induction false} ChangesRoundTrip(toks: seq<Token>, p: nat, cs: seq<StatusChange>)
    requires Occurs(toks, p, EncodeChanges(cs))
    ensures DecodeChanges(toks, p, |cs|) == Some((cs, p + 2 * |cs|))
  {
    if cs != [] {
      var init, c := cs[..|cs| - 1], cs[|cs| - 1];
      OccursSplit(toks, p, EncodeChanges(init), EncodeChange(c));
      ChangesRoundTrip(toks, p, init);
      ChangeRoundTrip(toks, p + 2 * |init|, c);
      assert init + [c] == cs;
    }
  }

  /** One status change reads back where it was written. */
  lemma {:induction false} ChangeRoundTrip(toks: seq<Token>, q: nat, c: StatusChange)
    requires Occurs(toks, q, EncodeChange(c))
    ensures ChangeAt(toks, q) == Some((c, q + 2))
  {
    OccursAt(toks, q, EncodeChange(c), 0);
    OccursAt(toks, q, EncodeChange(c), 1);
  }

  /** A notes section reads back as its notes from NOTES_VERSION on, and as nothing before it. */
  lemma {:induction false} NotesSectionRoundTrip(toks: seq<Token>, p: nat, ns: seq<Note>, v: int)
    requires |ns| < Int32Limit && Occurs(toks, p, EncodeNotesSection(ns, v))
    ensures DecodeNotesSection(toks, p, v)
         == Some((CarriedNotes(ns, v), p + |EncodeNotesSection(ns, v)|))
  {
    if v >= NOTES_VERSION {
      OccursSplit(toks, p, [I32(|ns|)], EncodeNotes(ns));
      OccursAt(toks, p, [I32(|ns|)], 0);
      assert Int32At(toks, p) == Some((|ns| as Int32, p + 1));
      NotesRoundTrip(toks, p + 1, ns);
    }
  }

  lemma {:induction false} ChangesSectionRoundTrip(toks: seq<Token>, p: nat, cs: seq<StatusChange>, v: int)
    requires |cs| < Int32Limit && Occurs(toks, p, EncodeChangesSection(cs, v))
    ensures DecodeChangesSection(toks, p, v)
         == Some((CarriedHistory(cs, v), p + |EncodeChangesSection(cs, v)|))
  {
    if v >= TASK_STATUS_VERSION {
      OccursSplit(toks, p, [I32(|cs|)], EncodeChanges(cs));
      OccursAt(toks, p, [I32(|cs|)], 0);
      assert Int32At(toks, p) == Some((|cs| as Int32, p + 1));
      ChangesRoundTrip(toks, p + 1, cs);
    }
  }

  /** The fixed head of a body reads back as the status and the three dates. */
  lemma {:induction false} BodyHeadRoundTrip(toks: seq<Token>, p: nat, b: Body)
    requires Occurs(toks, p, BodyHead(b))
    ensures Int32At(toks, p) == Some((StatusCode(b.status), p + 1))
    ensures StatusFromCode(StatusCode(b.status)) == Some(b.status)
    ensures DateAt(toks, p + 1) == Some((b.creation, p + 2))
    ensures DateAt(toks, p + 2) == Some((b.start, p + 3))
    ensures DateAt(toks, p + 3) == Some((b.completion, p + 4))
  {
    OccursAt(toks, p, BodyHead(b), 0);
    OccursAt(toks, p, BodyHead(b), 1);
    OccursAt(toks, p, BodyHead(b), 2);
    OccursAt(toks, p, BodyHead(b), 3);
  }

  /**
   * Reading a body at the version it was written at gives back status, dates,
   * notes and history as far as that version carries them, and stops exactly
   * where the body ends.  Counts must fit the 32-bit field they are written to.
   */
  lemma {:induction false} BodyRoundTrip(toks: seq<Token>, p: nat, b: Body, v: int)
    requires |b.notes| < Int32Limit && |b.history| < Int32Limit
    requires Occurs(toks, p, EncodeBody(b, v))
    ensures DecodeBody(toks, p, v) == Some((Visible(b, v), p + |EncodeBody(b, v)|))
  {
    var mid, q := BodyPartsRoundTrip(toks, p, b, v);
    BodyFromParts(toks, p, b, v, mid, q);
    assert DecodeBody(toks, p, v) == Some((Visible(b, v), q));
  }

  /** When each read of DecodeBody gives back its part of b, the whole read gives back b as v carries it. */
  lemma {:induction false} BodyFromParts(toks: seq<Token>, p: nat, b: Body, v: int, mid: nat, q: nat)
    requires Int32At(toks, p) == Some((StatusCode(b.status), p + 1))
    requires StatusFromCode(StatusCode(b.status)) == Some(b.status)
    requires DateAt(toks, p + 1) == Some((b.creation, p + 2))
    requires DateAt(toks, p + 2) == Some((b.start, p + 3))
    requires DateAt(toks, p + 3) == Some((b.completion, p + 4))
    requires DecodeNotesSection(toks, p + 4, v) == Some((CarriedNotes(b.notes, v), mid))
    requires DecodeChangesSection(toks, mid, v) == Some((CarriedHistory(b.history, v), q))
    ensures DecodeBody(toks, p, v) == Some((Visible(b, v), q))
  {
  }

  /** Each read DecodeBody makes, on an encoded body, gives back the part written there. */
  lemma {:induction false} BodyPartsRoundTrip(toks: seq<Token>, p: nat, b: Body, v: int) returns (mid: nat, q: nat)
    requires |b.notes| < Int32Limit && |b.history| < Int32Limit
    requires Occurs(toks, p, EncodeBody(b, v))
    ensures Int32At(toks, p) == Some((StatusCode(b.status), p + 1))
    ensures StatusFromCode(StatusCode(b.status)) == Some(b.status)
    ensures DateAt(toks, p + 1) == Some((b.creation, p + 2))
    ensures DateAt(toks, p + 2) == Some((b.start, p + 3))
    ensures DateAt(toks, p + 3) == Some((b.completion, p + 4))
    ensures mid == p + 4 + |EncodeNotesSection(b.notes, v)| && q == p + |EncodeBody(b, v)|
    ensures DecodeNotesSection(toks, p + 4, v) == Some((CarriedNotes(b.notes, v), mid))
    ensures DecodeChangesSection(toks, mid, v) == Some((CarriedHistory(b.history, v), q))
  {
    mid := p + 4 + |EncodeNotesSection(b.notes, v)|;
    q := p + |EncodeBody(b, v)|;
    BodyOccurs(toks, p, b, v);
    BodyHeadRoundTrip(toks, p, b);
    NotesSectionRoundTrip(toks, p + 4, b.notes, v);
    assert DecodeNotesSection(toks, p + 4, v) == Some((CarriedNotes(b.notes, v), mid));
    BodyChangesRoundTrip(toks, p, b, v);
    assert DecodeChangesSection(toks, mid, v) == Some((CarriedHistory(b.history, v), q));
  }

  /** The changes section of an encoded body reads back right after its notes section. */
  lemma {:induction false} BodyChangesRoundTrip(toks: seq<Token>, p: nat, b: Body, v: int)
    requires |b.history| < Int32Limit
    requires Occurs(toks, p, EncodeBody(b, v))
    ensures var mid := p + 4 + |EncodeNotesSection(b.notes, v)|;
      DecodeChangesSection(toks, mid, v)
      == Some((CarriedHistory(b.history, v), mid + |EncodeChangesSection(b.history, v)|))
  {
    BodyOccurs(toks, p, b, v);
    ChangesSectionRoundTrip(toks, p + 4 + |EncodeNotesSection(b.notes, v)|, b.history, v);
  }

  /** Where a body occurs, its head, notes section and changes section occur one after the other. */
  lemma {:induction false} BodyOccurs(toks: seq<Token>, p: nat, b: Body, v: int)
    requires Occurs(toks, p, EncodeBody(b, v))
    ensures var ns, cs := EncodeNotesSection(b.notes, v), EncodeChangesSection(b.history, v);
      && |EncodeBody(b, v)| == 4 + |ns| + |cs|
      && Occurs(toks, p, BodyHead(b))
      && Occurs(toks, p + 4, ns)
      && Occurs(toks, p + 4 + |ns|, cs)
  {
    var ns, cs := EncodeNotesSection(b.notes, v), EncodeChangesSection(b.history, v);
    OccursSplit(toks, p, BodyHead(b) + ns, cs);
    OccursSplit(toks, p, BodyHead(b), ns);
  }

  /** Re-encoding what was read writes the same tokens again. */
  lemma ReencodeVisible(b: Body, v: int)
    ensures EncodeBody(Visible(b, v), v) == EncodeBody(b, v)
  {
  }

  /** Below NOTES_VERSION a body is the status and three dates, whatever its notes and history. */
  lemma OldStreamBodyIsFourTokens(b: Body, v: int)
    requires v < NOTES_VERSION
    ensures EncodeBody(b, v) == [I32(StatusCode(b.status)), DateTok(b.creation), DateTok(b.start), DateTok(b.completion)]
  {
  }

  /**
   * A task's record reads back: what NewTaskFromSerializer reads after the
   * identity word gives back title, description and the visible body, and
   * stops just before the parent word (see NodeOccurs).
   */
  lemma {:induction false} NodeRoundTrip(toks: seq<Token>, p: nat, id: TaskId, n: Node, v: int)
    requires |n.notes| < Int32Limit && |n.history| < Int32Limit
    requires Occurs(toks, p, EncodeNode(id, n, v))
    ensures DecodeTask(toks, p + 1, v)
         == Some((n.title, n.description, Visible(BodyOf(n), v), p + 3 + |EncodeBody(BodyOf(n), v)|))
  {
    NodeOccurs(toks, p, id, n, v);
    TaskFromBody(toks, p + 1, p + 3, n.title, n.description, BodyOf(n), v);
  }

  /** Title and description tokens followed by an encoded body read back as that task. */
  lemma {:induction false} TaskFromBody(toks: seq<Token>, pos: nat, bodyAt: nat, title: string, desc: string, b: Body, v: int)
    requires |b.notes| < Int32Limit && |b.history| < Int32Limit
    requires bodyAt == pos + 2 && pos + 1 < |toks| && toks[pos] == Str(title) && toks[pos + 1] == Str(desc)
    requires Occurs(toks, bodyAt, EncodeBody(b, v))
    ensures DecodeTask(toks, pos, v) == Some((title, desc, Visible(b, v), bodyAt + |EncodeBody(b, v)|))
  {
    assert StringAt(toks, pos) == Some((title, pos + 1));
    assert StringAt(toks, pos + 1) == Some((desc, bodyAt));
    BodyRoundTrip(toks, bodyAt, b, v);
  }

  /** Where a task's record occurs, its id, title, description, body and parent word occur in turn. */
  lemma {:induction false} NodeOccurs(toks: seq<Token>, p: nat, id: TaskId, n: Node, v: int)
    requires Occurs(toks, p, EncodeNode(id, n, v))
    ensures var body := EncodeBody(BodyOf(n), v);
      && |EncodeNode(id, n, v)| == 4 + |body|
      && toks[p] == U64(id) && toks[p + 1] == Str(n.title) && toks[p + 2] == Str(n.description)
      && Occurs(toks, p + 3, body)
      && toks[p + 3 + |body|] == U64(ParentWord(n.parent))
  {
    var head := [U64(id), Str(n.title), Str(n.description)];
    var body := EncodeBody(BodyOf(n), v);
    OccursSplit(toks, p, head + body, [U64(ParentWord(n.parent))]);
    OccursSplit(toks, p, head, body);
    OccursAt(toks, p, head, 0);
    OccursAt(toks, p, head, 1);
    OccursAt(toks, p, head, 2);
    OccursAt(toks, p + 3 + |body|, [U64(ParentWord(n.parent))], 0);
  }


  // ---------------------------------------------------------------- stream loops

  /** The note loop of Task::Serialize; each note writes itself as text then date. */
  method WriteNotes(s: Serializer, ns: seq<Note>)
    modifies s`tokens
    ensures s.tokens == old(s.tokens) + EncodeNotes(ns)
  {
    for i := 0 to |ns|
      invariant s.tokens == old(s.tokens) + EncodeNotes(ns[..i])
    {
      assert ns[..i + 1][..i] == ns[..i];
      s.WriteString(ns[i].text);
      s.WriteDate(ns[i].created);
    }
    assert ns[..|ns|] == ns;
  }

  /** The status-change loop of Task::Serialize: date, then status as a 32-bit integer. */
  method WriteChanges(s: Serializer, cs: seq<StatusChange>)
    modifies s`tokens
    ensures s.tokens == old(s.tokens) + EncodeChanges(cs)
  {
    for i := 0 to |cs|
      invariant s.tokens == old(s.tokens) + EncodeChanges(cs[..i])
    {
      assert cs[..i + 1][..i] == cs[..i];
      s.WriteDate(cs[i].date);
      s.WriteInt32(cs[i].status);
    }
    assert cs[..|cs|] == cs;
  }

  /** Task::Serialize from the status through the version-gated sections. */
  method WriteBody(s: Serializer, b: Body)
    modifies s`tokens
    ensures s.tokens == old(s.tokens) + EncodeBody(b, s.version)
  {
    s.WriteInt32(StatusCode(b.status));
    s.WriteDate(b.creation);
    s.WriteDate(b.start);
    s.WriteDate(b.completion);
    assert s.tokens == old(s.tokens) + BodyHead(b);
    WriteNotesSection(s, b.notes);
    WriteChangesSection(s, b.history);
  }

  /** The notes count and notes, written only from the notes version on. */
  method WriteNotesSection(s: Serializer, ns: seq<Note>)
    modifies s`tokens
    ensures s.tokens == old(s.tokens) + EncodeNotesSection(ns, s.version)
  {
    if s.version >= NOTES_VERSION {
      var count := ToInt32(|ns|);
      s.WriteInt32(count);
      WriteNotes(s, ns);
      assert s.tokens == old(s.tokens) + ([I32(count)] + EncodeNotes(ns));
    }
  }

  /** The status-change count and changes, written only from the status-history version on. */
  method WriteChangesSection(s: Serializer, cs: seq<StatusChange>)
    modifies s`tokens
    ensures s.tokens == old(s.tokens) + EncodeChangesSection(cs, s.version)
  {
    if s.version >= TASK_STATUS_VERSION {
      var count := ToInt32(|cs|);
      s.WriteInt32(count);
      WriteChanges(s, cs);
      assert s.tokens == old(s.tokens) + ([I32(count)] + EncodeChanges(cs));
    }
  }

  /** The writes of Task::Serialize before the children: id, title, description, body, parent id. */
  method WriteNode(s: Serializer, id: TaskId, n: Node)
    modifies s`tokens
    ensures s.tokens == old(s.tokens) + EncodeNode(id, n, s.version)
  {
    s.WriteUint64(id);
    s.WriteString(n.title);
    s.WriteString(n.description);
    WriteBody(s, BodyOf(n));
    s.WriteUint64(ParentWord(n.parent));
  }

  /** The note loop of UnSerializeFromSerializer: `count` iterations, none when it is negative. */
  method ReadNotes(s: Serializer, count: Int32) returns (ns: seq<Note>)
    modifies s`pos, s`failed
    ensures var d := DecodeNotes(s.tokens, old(s.pos), LoopCount(count));
      if !old(s.failed) && d.Some? then !s.failed && (ns, s.pos) == d.value else s.failed
  {
    ns := [];
    var i: nat := 0;
    while i < count
      invariant i <= LoopCount(count)
      invariant var d := DecodeNotes(s.tokens, old(s.pos), i);
        if !old(s.failed) && d.Some? then !s.failed && (ns, s.pos) == d.value else s.failed
    {
      var text := s.ReadString();
      var created := s.ReadDate();
      ns := ns + [Note(text, created)];
      i := i + 1;
    }
  }

  method ReadChanges(s: Serializer, count: Int32) returns (cs: seq<StatusChange>)
    modifies s`pos, s`failed
    ensures var d := DecodeChanges(s.tokens, old(s.pos), LoopCount(count));
      if !old(s.failed) && d.Some? then !s.failed && (cs, s.pos) == d.value else s.failed
  {
    cs := [];
    var i: nat := 0;
    while i < count
      invariant i <= LoopCount(count)
      invariant var d := DecodeChanges(s.tokens, old(s.pos), i);
        if !old(s.failed) && d.Some? then !s.failed && (cs, s.pos) == d.value else s.failed
    {
      var d := s.ReadDate();
      var status := s.ReadInt32();
      cs := cs + [StatusChange(d, status)];
      i := i + 1;
    }
  }

  /**
   * The reads of UnSerializeFromSerializer.  A status code outside the
   * enumeration marks the stream as failed.
   */
  method ReadBody(s: Serializer) returns (b: Body)
    modifies s`pos, s`failed
    ensures var d := DecodeBody(s.tokens, old(s.pos), s.version);
      if !old(s.failed) && d.Some? then !s.failed && (b, s.pos) == d.value else s.failed
  {
    var code := s.ReadInt32();
    var status := Created;
    match StatusFromCode(code) {
      case Some(st) => status := st;
      case None => s.Reject();
    }
    var created := s.ReadDate();
    var started := s.ReadDate();
    var completed := s.ReadDate();
    var notes := ReadNotesSection(s);
    var history := ReadChangesSection(s);
    b := Body(status, created, started, completed, notes, history);
  }

  /** The notes count and notes, read only from the notes version on. */
  method ReadNotesSection(s: Serializer) returns (ns: seq<Note>)
    modifies s`pos, s`failed
    ensures var d := DecodeNotesSection(s.tokens, old(s.pos), s.version);
      if !old(s.failed) && d.Some? then !s.failed && (ns, s.pos) == d.value else s.failed
  {
    ns := [];
    if s.version >= NOTES_VERSION {
      var count := s.ReadInt32();
      ns := ReadNotes(s, count);
    }
  }

  /** The status-change count and changes, read only from the status-history version on. */
  method ReadChangesSection(s: Serializer) returns (cs: seq<StatusChange>)
    modifies s`pos, s`failed
    ensures var d := DecodeChangesSection(s.tokens, old(s.pos), s.version);
      if !old(s.failed) && d.Some? then !s.failed && (cs, s.pos) == d.value else s.failed
  {
    cs := [];
    if s.version >= TASK_STATUS_VERSION {
      var count := s.ReadInt32();
      cs := ReadChanges(s, count);
    }
  }
}
