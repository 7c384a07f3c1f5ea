# doneyet task tree and configuration, in Dafny

This project models two parts of doneyet, a terminal to-do manager:

- **The task tree (`task.cc`).** A task has:
  - a title, a description and a status (CREATED, IN_PROGRESS, PAUSED, COMPLETED);
  - creation, start and completion dates;
  - an ordered list of notes and an append-only status history;
  - an owned, ordered list of subtasks, a parent link, and a filtered view of its subtasks.

  The model covers:
  - creation;
  - notes: `AddNote`, `HasNotes`, `Notes`, `DeleteNote`;
  - tree edits: `AddSubTask`, `RemoveSubtaskFromList`, `Delete`, `DeleteTask`;
  - ordering: `SwapTasks`, `MoveTaskUp`, `MoveTaskDown`, `MoveUp`, `MoveDown`;
  - filtering and counts: `ApplyFilter`, `NumOffspring`, `NumFilteredOffspring`, `NumFilteredChildren`, `FilteredChild`;
  - the status state machine `SetStatus`;
  - the stream format written by `Serialize` and read back by `UnSerializeFromSerializer` and `NewTaskFromSerializer`.
- **Option parsing (`doneyet-config.cc`).** This covers:
  - the case-insensitive colour lookup `ColorForString`;
  - the validators `ParseColor` and `ParseBool`;
  - the three short-circuiting `Parse*Options` methods;
  - `Parse`, which loads the defaults, lets an optional configuration file override them, and then validates general, task and menu options in that order.

Modules:

| file | module | what it holds |
|---|---|---|
| `wrappers.dfy` | `Wrappers` | `Option` |
| `dates.dfy` | `Dates` | a date is a clock reading or the empty time; `Now(t)` is the reading taken at `t` |
| `ints.dfy` | `Int32Math` | the wrap-around of a size written as a 32-bit `int32` |
| `sequences.dfy` | `Sequences` | `find`, erase-first, index swap, neighbours in a list, subsequences |
| `tasks.dfy` | `Tasks` | the task record, the `SetStatus` effect, note lookup and `DeleteNote` |
| `forest.dfy` | `Forest` | the task arena (`map<TaskId, Node>`) and the ownership invariant `WellLinked`; subtrees, counts, filtered views, and the net effect of each tree edit, with the lemmas that each edit keeps the invariant |
| `serializer.dfy` | `Serialization` | the serializer as a token stream with a write end, a read cursor and a sticky failure flag |
| `codec.dfy` | `TaskCodec` | the stream layout as pure encode and decode functions, the round-trip lemmas, and the methods that write and read through a `Serializer` |
| `tree.dfy` | `Tree` | class `TaskTree`: the `Task` member functions as methods that update the arena in place, each proved against the `Forest`/`Tasks` function for its effect |
| `config.dfy` | `Config` | colour and boolean parsing, the defaults, and class `DoneyetConfig` whose methods assign the colour and flag fields |

Tasks live in an arena keyed by an opaque identity (`TaskId`, 0 standing for NULL). Pointers become keys. `delete` becomes removal from the arena.

The recursive walks carry the set of tasks not yet visited on the current path. In a tree this never cuts anything off. On a cycle it stops where the C++ would recurse forever.

The filter is a parameter `keep: Node -> bool`. `FilterVector` is taken to keep the tasks it accepts, in order.

What the configuration file reader stores is a parameter, `stored: ConfigMap`, and its verdict is another, `parsed: bool`. A file that fails to parse may still have stored the entries read before the failure.

Where the code does something surprising, the model follows the code:
- **`DeleteTask`:** it returns only when `t` is a direct child of the task being searched. After a recursive search of a child it keeps looping over the remaining children (`task.cc:100-107`). `TaskDeletedLoop` does the same.
- **`Delete`:** it destroys the whole subtree and detaches the task from its parent. The loop at `task.cc:112-114` skips every other child, because each child's `Delete` shrinks the list. The destructor frees the skipped ones (`task.cc:22-26`), so the net effect, which `Deleted` states, is still that the whole subtree is gone.
- **`AddSubTask`:** it does not check whether the child already has a parent (`task.cc:81-84`). The model attaches it anyway, and the invariant is proved only for a child with no parent.
- **Failed reads:** the code does not check for them at all. The model's `Serializer` raises a sticky failure flag on a missing or mistyped token. Every read method states what it returns on success and that the flag is raised otherwise.

## Model

| member | source | states |
|---|---|---|
| Tasks.StatusFromCode | task.cc:219 | An integer names a status exactly when it is 0..3, and the status it names converts back to that integer. |
| Tasks.SetStatusEffect | task.cc:244-262 | The new status is `t`. The history grows by exactly one entry, (now, t), even when `t` equals the old status. The start date changes only on CREATED→IN_PROGRESS. The completion date is set on entering COMPLETED and emptied on IN_PROGRESS or on entering PAUSED. It changes in no other case, and nothing else in the task changes. |
| Tasks.CompleteThenPauseClears | task.cc:248-252 | Completing a task and then pausing it leaves its completion date empty. |
| Tasks.RestartKeepsStart | task.cc:245-247 | Once a task has left CREATED, setting IN_PROGRESS again never moves its start date. |
| Tree.TaskTree.SetStatus | task.cc:244-262 | Replaces the task by its `SetStatusEffect` and changes no other task. The arena stays well linked. |
| Tree.TaskTree.NewTask | task.cc:12-20 | Adds a task under a new identity. It is CREATED, with creation date now, empty start and completion, no notes, history or links. The tree stays well linked. |
| Forest.FreshTaskKeepsLinks | task.cc:12-20 | Adding a task with no parent and no children keeps the ownership invariant. |
| Tree.TaskTree.AddNote | task.cc:36 | Appends one note with the given text, stamped now, after the existing notes. |
| Tree.TaskTree.HasNotes | task.cc:38 | True exactly when the task has at least one note. |
| Tasks.NoteTexts | task.cc:55-61 | One text per note (`NoteTextsAt`: the i-th text is the i-th note's). |
| Tasks.NoteTextsAt | task.cc:55-61 | The i-th text of `Notes()` is the text of the i-th note. |
| Tasks.NoteTextsConcat | task.cc:55-61 | The note texts of two concatenated note lists are the two text lists concatenated. |
| Tree.TaskTree.Notes | task.cc:55-61 | Returns the note texts in note order and changes nothing. |
| Tasks.LastNoteWithText | task.cc:40-53 | -1 exactly when no note has the text. Otherwise the result is an index whose note has the text, and no later note does. |
| Tasks.FindLastNote | task.cc:41-49 | The scan finds a match exactly when some note has the text, and the position it keeps is the last match. |
| Tree.TaskTree.DeleteNote | task.cc:40-53 | Replaces the task's notes by `DeleteNoteEffect` and changes nothing else. |
| Tasks.DeleteNoteAbsent | task.cc:50-52 | When no note has the text, `DeleteNote` leaves the notes unchanged. |
| Tasks.DeleteNoteRemovesOne | task.cc:40-53 | When some note has the text, exactly one note goes. The text's count drops by one, and every other text keeps its count. |
| Tasks.DeletedNoteTexts | task.cc:51 | Erasing the note at position k erases its text at k from the text list, and the other texts keep their order. |
| Tasks.DeleteNoteExample | task.cc:40-53 | On notes x, y, x, deleting "x" removes the later x and leaves x, y. |
| Tree.TaskTree.AddSubTask | task.cc:81-84 | Sets the child's parent to the task and appends the child to the task's list. The earlier children and their order are unchanged. When the child had no parent, the tree stays well linked. |
| Forest.AttachedAt | task.cc:81-84 | After `AddSubTask` the child's parent is the task and the task's list is the old list plus the child at the end. Every other parent link and child list is unchanged. |
| Forest.AttachKeepsLinks | task.cc:81-84 | Attaching a task that has no parent keeps the ownership invariant. |
| Tree.TaskTree.RemoveSubtaskFromList | task.cc:86-93 | Replaces the task's list by `RemoveFirst` of it and changes no other task. |
| Sequences.RemoveFirst | task.cc:86-93 | Removing a value that is not in the list leaves the list unchanged. |
| Sequences.RemoveFirstMultiset | task.cc:86-93 | Removing a present value takes exactly one copy of it out. An absent value leaves the multiset unchanged. |
| Sequences.RemoveOnlyOccurrence | task.cc:86-93 | When the list holds the value once, it no longer holds it afterwards, and every other value keeps its count. |
| Tree.TaskTree.Delete | task.cc:111-119 | Changes the arena to `Deleted`: the task's whole subtree is removed and the task leaves its parent's list. The tree stays well linked. |
| Forest.Deleted | task.cc:111-119 | The deleted task is gone, no task is added, and no child list grows. |
| Forest.DeletedAt | task.cc:111-119 | A task survives `Delete` exactly when it is outside the deleted subtree. A survivor is as detaching left it. |
| Forest.DeletedShape | task.cc:111-119 | The survivors are the tasks outside the subtree. Only the parent's list changes, and it loses the deleted task (its first occurrence) and nothing else. |
| Forest.DeleteKeepsLinks | task.cc:111-119 | `Delete` keeps the ownership invariant and removes the task. |
| Forest.DetachedCount | task.cc:115-117 | Detaching a task leaves the number of listings of every other task unchanged. |
| Tree.TaskTree.DeleteTask | task.cc:95-109 | Changes the arena to `TaskDeletedWithin`, the effect of the search loop as written. That effect is exactly `Delete` on `t` when `t` is in the subtree of `root`, and no change otherwise. The tree stays well linked. |
| Tree.TaskTree.DeleteTaskIn | task.cc:95-109 | The recursive step of `DeleteTask`: its effect is `TaskDeletedWithin` on the given task, and the tree stays well linked. |
| Forest.TaskNotFoundNoChange | task.cc:95-109 | When `t` is not in the searched subtree, `DeleteTask` changes nothing. |
| Forest.TaskFoundRemoved | task.cc:95-109 | When `t` is in the searched subtree, `DeleteTask` removes it. |
| Forest.TaskFoundDeletes | task.cc:95-109 | In a well-linked tree, when `t` is in the searched subtree, `DeleteTask` has exactly the effect of `Delete` on `t` (task.cc:97-98, 101-103): t's subtree goes, t leaves its parent's list, and nothing else changes. The searches before it change nothing, and those after it no longer find `t`. |
| Forest.TaskFoundLoopDeletes | task.cc:100-107 | The loop over the children from position i, when `t` is below one of them, has exactly the effect of `Delete` on `t`. |
| Forest.LoopAfterDeleted | task.cc:100-107 | Once `t` is deleted below a child, the loop goes on over the later children and changes nothing more. |
| Forest.TaskDeletedEffect | task.cc:95-109 | In a well-linked tree, `DeleteTask` from a task deletes t's subtree when `t` is below it, and changes nothing otherwise. |
| Forest.TaskDeletedKeepsLinks | task.cc:95-109 | `DeleteTask` keeps the ownership invariant. |
| Tree.TaskTree.SwapTasks | task.cc:121-139 | Changes the arena to `SwappedChildren`. When `a` is `b` nothing changes. Otherwise `a` and `b` exchange places in the list. The tree stays well linked. |
| Sequences.Swapped | task.cc:132-137 | The swap keeps the length and exchanges the two positions. Every other position keeps its value, and the result is a permutation. |
| Sequences.SwappedTwice | task.cc:132-137 | Swapping the same two positions twice restores the list. |
| Sequences.IndexOf | task.cc:127-133 | `find` gives the first position holding the value, or the length when the value is absent. |
| Sequences.Find | task.cc:127-128 | The linear search returns `IndexOf`. |
| Forest.SwapKeepsLinks | task.cc:121-139 | `SwapTasks` keeps the invariant, the set of tasks and every filtered view, and the list stays a permutation of itself. |
| Forest.PermutedChildrenKeepLinks | task.cc:121-139 | Any reordering of one child list keeps the ownership invariant. |
| Tree.TaskTree.MoveTaskUp | task.cc:141-152 | Changes the arena to `MovedUp`: the task swaps with its predecessor in the filtered view, and heading the view is a no-op. The tree stays well linked. |
| Tree.TaskTree.MoveTaskDown | task.cc:154-165 | Changes the arena to `MovedDown`: the task swaps with its successor in the filtered view, and ending the view is a no-op. The tree stays well linked. |
| Tree.TaskTree.MoveUp | task.cc:167-171 | Does nothing for a task without a parent. Otherwise it is `MoveTaskUp` on the parent. |
| Tree.TaskTree.MoveDown | task.cc:173-177 | Does nothing for a task without a parent. Otherwise it is `MoveTaskDown` on the parent. |
| Forest.MoveDownExample | task.cc:154-165 | With A, B and C all visible, moving A down gives B, A, C. |
| Forest.MovesKeepLinks | task.cc:141-165 | Moving a task up or down keeps the invariant, the set of tasks and every filtered view. |
| Sequences.BelowAbove | task.cc:148-163 | In a list without repeats, the successor of a non-first element's predecessor is that element. |
| Forest.MoveDownUndoesMoveUp | task.cc:141-165 | With distinct lists, moving a task up and then moving its former predecessor down restores the arena. |
| Tree.TaskTree.ApplyFilter | task.cc:71-79 | Changes the arena to `Refiltered`. Only filtered views change. The tree stays well linked. |
| Tree.TaskTree.ApplyFilterIn | task.cc:71-79 | The recursive step of `ApplyFilter`: its effect is `Refiltered` on the given task. |
| Forest.Refiltered | task.cc:71-79 | `ApplyFilter` keeps every task and changes nothing but filtered views. |
| Forest.FilterIds | task.cc:78 | The view is a subsequence of the child list, and it holds exactly the children the predicate keeps. |
| Forest.RefilteredOwnView | task.cc:78 | The task's view is its children filtered after the children themselves were refiltered. |
| Forest.RefilteredFrame | task.cc:71-79 | `ApplyFilter` changes nothing outside the subtree it is called on. |
| Forest.RejectAllEmptiesSubtree | task.cc:71-79 | With a predicate that rejects everything, every view in the subtree becomes empty, and no task outside the subtree changes. |
| Forest.RejectAllCounts | task.cc:264-279 | After filtering with a predicate that rejects everything, the filtered offspring count is 0 and the offspring count is unchanged. |
| Forest.NumOffspring | task.cc:264-271 | A task has at least as many offspring as children. |
| Forest.NumFilteredOffspring | task.cc:273-279 | A task has at least as many filtered offspring as entries in its filtered view. |
| Forest.FilteredAtMostOffspring | task.cc:264-279 | When every view selects from its own child list, the filtered offspring count never exceeds the offspring count. |
| Forest.SameChildrenSameOffspring | task.cc:264-271 | Arenas with the same tasks and the same child lists have the same offspring counts, so filtering, notes and status changes leave the count alone. |
| Tree.TaskTree.NumFilteredChildren | task.cc:296 | The number of filtered children is at most the filtered offspring count. |
| Tree.TaskTree.FilteredChild | task.cc:298 | The c-th filtered child is in the view, and it is a child of the task when the view selects from the child list. |
| Int32Math.ToInt32 | task.cc:196 | A size that fits in `int32` is written unchanged. |
| Int32Math.ToInt32Wraps | task.cc:196 | The `int32` a size is written as differs from the size by a multiple of 2^32. |
| Int32Math.LargeSizeTurnsNegative | task.cc:196 | A size from 2^31 up to 2^32 is written as a negative count. |
| TaskCodec.Visible | task.cc:194-209 | A stream below the notes version carries no notes and one below the status version no history. Nothing else is dropped. |
| TaskCodec.DecodeBody | task.cc:218-242 | A successful read consumes at least one token and stays inside the stream. |
| TaskCodec.DecodeTask | task.cc:28-34 | A successful read of a whole task consumes at least one token and stays inside the stream. |
| TaskCodec.NotesRoundTrip | task.cc:224-231 | Reading the notes the loop at lines 196-199 wrote gives them back in order, two tokens each. |
| TaskCodec.ChangesRoundTrip | task.cc:233-241 | Reading the history the loop at lines 204-208 wrote gives it back in order, two tokens each. |
| TaskCodec.NotesSectionRoundTrip | task.cc:224-231 | Reading the notes section of a version-v stream gives the notes it carries and ends where the section ends. |
| TaskCodec.ChangesSectionRoundTrip | task.cc:233-241 | Reading the history section of a version-v stream gives the history it carries and ends where the section ends. |
| TaskCodec.BodyHeadRoundTrip | task.cc:219-222 | Status and the three dates read back as written. |
| TaskCodec.BodyRoundTrip | task.cc:179-242 | Reading at version v what `Serialize` wrote between description and parent id gives the same status, dates, notes and history, minus what version v does not carry, and ends right after it. |
| TaskCodec.BodyPartsRoundTrip | task.cc:218-242 | Each read of `UnSerializeFromSerializer` returns what the matching write put there, at the position where the previous read ended. |
| TaskCodec.BodyFromParts | task.cc:218-242 | When each of the reads succeeds in turn, the whole body read succeeds with their results. |
| TaskCodec.ReencodeVisible | task.cc:179-209 | Writing again what was read writes the same tokens. |
| TaskCodec.OldStreamBodyIsFourTokens | task.cc:187-209 | Below the notes version, a body is the status and the three dates, whatever the task's notes and history. |
| TaskCodec.NodeRoundTrip | task.cc:28-34 | Reading with `NewTaskFromSerializer` right after the identity word of a record that `Serialize` wrote (lines 179-212) gives back the title, the description and the visible body. It stops just before the parent word. |
| TaskCodec.TaskFromBody | task.cc:28-34 | A title and a description followed by an encoded body read back as that title, description and visible body. |
| TaskCodec.NodeOccurs | task.cc:179-212 | A record is the identity word, the title, the description, the body and finally the parent word, in that order. |
| TaskCodec.ReadIntoNew | task.cc:28-34 | Reading a body into a freshly made task gives exactly the task the body describes, with no links. |
| TaskCodec.WriteNode | task.cc:179-212 | Appends the encoding of one task: identity, title, description, body, parent word. |
| TaskCodec.WriteBody | task.cc:187-209 | Appends the body's encoding for the stream's version. |
| TaskCodec.WriteNotesSection | task.cc:194-200 | Appends the notes section for the stream's version: nothing before the notes version, otherwise a count and each note. |
| TaskCodec.WriteChangesSection | task.cc:202-209 | Appends the history section for the stream's version: nothing before the status version, otherwise a count and each change. |
| TaskCodec.WriteNotes | task.cc:197-199 | Appends each note's encoding in order. |
| TaskCodec.WriteChanges | task.cc:205-208 | Appends each status change as date then status. |
| Tree.TaskTree.Serialize | task.cc:179-216 | Appends the task, then its subtasks depth-first in list order (`EncodeTreeWithin`). |
| Tree.TaskTree.SerializeIn | task.cc:179-216 | The recursive step of `Serialize`: it appends `EncodeTreeWithin` of the given task. |
| Tree.TaskTree.SerializeChildren | task.cc:213-215 | Appends each child's subtree in list order. |
| TaskCodec.ReadBody | task.cc:218-242 | On a healthy stream where `DecodeBody` succeeds, it returns that body and advances past it. Otherwise the stream is marked failed. |
| TaskCodec.ReadNotesSection | task.cc:224-231 | Returns the notes section's decode and advances past it, or marks the stream failed. |
| TaskCodec.ReadChangesSection | task.cc:233-241 | Returns the history section's decode and advances past it, or marks the stream failed. |
| TaskCodec.ReadNotes | task.cc:226-230 | Reads as many notes as the count says (none for a negative count), or marks the stream failed. |
| TaskCodec.ReadChanges | task.cc:235-240 | Reads as many changes as the count says (none for a negative count), or marks the stream failed. |
| Tree.TaskTree.UnSerializeFromSerializer | task.cc:218-242 | On success, status and dates are replaced, notes and history are appended, and links, title and description are kept. On failure, the stream is marked failed and only body fields may have changed. |
| Tree.TaskTree.NewTaskFromSerializer | task.cc:28-34 | Adds a new task holding the title, description and body read from the stream, with no links, or marks the stream failed. The tree stays well linked. |
| Config.LowerChar | doneyet-config.cc:108 | `tolower`: an upper-case ASCII letter becomes its lower-case letter, and any other character is unchanged. |
| Config.Lower | doneyet-config.cc:107-109 | Lower-cases every character and keeps the length. |
| Config.LowerIdempotent | doneyet-config.cc:107-109 | Lower-casing twice is lower-casing once. |
| Config.ColorForString | doneyet-config.cc:105-132 | Returns `ColorFor` of its argument. |
| Config.ColorForIgnoresCase | doneyet-config.cc:105-109 | Strings that agree up to case name the same colour. |
| Config.NamedColors | doneyet-config.cc:111-128 | black…white give the ncurses colours 0..7, and "terminal" gives -1. |
| Config.ColorForCases | doneyet-config.cc:105-132 | The result is one of -2..7. A colour number means the lower-cased string is that colour's name. -1 means exactly "terminal". -2 (`kColorError`) means exactly a string that names nothing. |
| Config.UpperCaseName | doneyet-config.cc:105-132 | "Blue" is blue, "TERMINAL" is the terminal colour, and "bleu" is an error. |
| Config.ParseColor | doneyet-config.cc:134-144 | Always outputs the lookup of the option's value. It succeeds exactly when that lookup is not `kColorError`. |
| Config.BoolFor | doneyet-config.cc:146-159 | Accepts exactly "true", "yes", "false" and "no", case-sensitively, and is true exactly for "true" and "yes". |
| Config.ParseBool | doneyet-config.cc:146-159 | Succeeds exactly on the four accepted words and outputs their meaning. On any other value it fails and leaves the output as it was. |
| Config.DoneyetConfig.ParseGeneralOptions | doneyet-config.cc:161-168 | Succeeds exactly when the three general colours are valid. Each colour is assigned only if every earlier one was valid. |
| Config.DoneyetConfig.ParseTaskOptions | doneyet-config.cc:170-178 | Succeeds exactly when the four task colours and the delete prompt are valid. Each option is assigned only if every earlier one was valid. |
| Config.DoneyetConfig.ParseMenuOptions | doneyet-config.cc:180-195 | Succeeds exactly when the six menu colours are valid. Each colour is assigned only if every earlier one was valid. |
| Config.DoneyetConfig.ParseTaskAndMenuOptions | doneyet-config.cc:62 | Succeeds exactly when task and menu options are valid. Invalid task options leave the menu colours unassigned. |
| Config.DoneyetConfig.ParseOptions | doneyet-config.cc:62 | Succeeds exactly when all three sections are valid, and stops at the first invalid section, leaving later sections unassigned. |
| Config.DoneyetConfig.LoadDefaults | doneyet-config.cc:36-55 | Stores every default into the option map, and every default is then valid. |
| Config.DoneyetConfig.Parse | doneyet-config.cc:33-63 | Loads the defaults, then, when a path is given, overlays what the file reader stored, whether or not the file parsed. A file that fails to parse makes `Parse` return false with every field unassigned. Otherwise it succeeds exactly when all three sections are valid, and with no path it always succeeds. An invalid general section leaves the task and menu settings unassigned, and an invalid task section leaves the menu settings unassigned. |
| Config.StoredLookup | doneyet-config.cc:36-55 | After a run of `map[key] = value` stores, a lookup gives the last value stored under that section and key, or the earlier value. |
| Config.LastStoredOfDistinct | doneyet-config.cc:36-55 | When no option is stored twice, the last value stored for an option is the one given for it. |
| Config.DefaultsDistinct | doneyet-config.cc:36-55 | The defaults store each option once. |
| Config.DefaultStored | doneyet-config.cc:36-55 | After the defaults are loaded, each default option holds its default value. |
| Config.DefaultNames | doneyet-config.cc:38-55 | The default colour names name white, black, red, green, blue, yellow and the terminal colour. |
| Config.DefaultGeneralColors | doneyet-config.cc:37-40 | The general defaults are white on black with a red header. |
| Config.DefaultTaskColors | doneyet-config.cc:42-46 | The task colour defaults are terminal, green, red and blue. |
| Config.DefaultTaskOptions | doneyet-config.cc:42-47 | The task defaults are terminal, green, red and blue, and the delete prompt is on. |
| Config.DefaultMenuColors | doneyet-config.cc:49-55 | The menu defaults are black on yellow, yellow on blue, and yellow on blue. |
| Config.DefaultsValid | doneyet-config.cc:36-55 | With the defaults alone, every option of every section is valid, so parsing them succeeds. |
| Config.OverlaidLookup | doneyet-config.cc:57-60 | After the file is read, an option the file sets has the file's value, and any other option keeps its value. |
| Config.UnsetOptionKeepsDefault | doneyet-config.cc:36-60 | An option the file does not set keeps its default. |

## Left out

- Date internals (date.h): `SetToNow`, `time_t` and date printing are not modelled. A date is a clock reading or the empty time, and the clock reading is a parameter `now` of every operation that stamps a date. The history entry of `SetStatus` and a new note are stamped through the default constructor `Date()`, whose body (date.cc) is not part of this model; that it reads the clock, as `SetToNow` does for the creation date, is assumed.
- Note internals: `note.h` is not part of this model. A note is a text and a date, and it is written and read as two tokens.
- Serializer internals: `serializer.h` is not part of this model. The serializer is a stream of typed tokens, and the byte format is not modelled.
- Read failures: the C++ reads report no failure. The model's `Serializer` raises a sticky flag on a missing or mistyped token, so on a corrupt stream the model says more than the C++ does.
- Invalid status codes: `task.h` is not part of this model. Its `TaskStatus` enumerators are assumed to be numbered 0..3 in declaration order (CREATED, IN_PROGRESS, PAUSED, COMPLETED). A status integer outside 0..3 makes the model's read fail. The C++ casts any integer to `TaskStatus`.
- Version constants: `file-versions.h` is not part of this model. `NOTES_VERSION` = 2 and `TASK_STATUS_VERSION` = 3 are assumed. Only their order matters to the lemmas.
- `MappedNotes` (task.cc:63-69): not modelled, because it depends on `Note::Text()`, whose meaning is in `note.h`, which is not part of this model.
- `ListColor` (task.cc:281-294) and `ToStream` (task.cc:300 onward): not modelled. They are ncurses colour pairs and text rendering.
- Memory management: the destructor, `delete this` and pointer identities written as `uint64` are not modelled. A task is a key in the arena, deletion is removal from it, and the identity written is that key.
- Tree reassembly: the caller that rebuilds parent and child links after reading is not part of this model. `NewTaskFromSerializer` reads no identity words.
- `FilterPredicate::FilterVector` is not part of this model. It is taken to keep, in order, the subtasks the predicate accepts. The predicate is modelled as `keep: Node -> bool`, which sees only the task's own record (including its freshly recomputed view). A C++ `FilterPredicate<Task*>` that reads other tasks reachable from the pointer is not modelled.
- The configuration file reader (`ConfigParser::ParseConfig`) and `FileManager` are not part of this model. Their result is a parameter: the path, the entries the reader stored into the map, and whether the file parsed.
- Config.DoneyetConfig.Parse: `ParseConfig` is taken to store entries over the map and never to erase one. The entries it stored before a failure are the `stored` parameter, whatever they are.
- Config.LowerChar: `tolower` is modelled for the "C" locale (ASCII letters only). Locale-dependent lower-casing of other characters is not modelled.
- The `fprintf` diagnostics of `ParseColor` and `ParseBool`, and the option getters (doneyet-config.cc:65-103), are not modelled.
- Missing-key reads: a missing option reads as the empty string. The empty entry that C++ `operator[]` inserts into the map is not modelled, because it changes no later lookup.
- Tree.TaskTree.SwapTasks: requires both tasks to be in the list. With only one present, the C++ writes one past the end (task.cc:130-137), so that case is not modelled.
- Tree.TaskTree.MoveTaskUp: requires the task to be in the filtered view, and the view to select from the child list. The C++ reads `filtered_tasks_[0]` and steps an iterator without checking either.
- Tree.TaskTree.MoveTaskDown: requires the same as `MoveTaskUp`, for the same reason.
- Tree.TaskTree.AddSubTask: the invariant is proved only for a child with no parent. The C++ also re-parents a child that still sits in another task's list, which breaks ownership.
- Forest.MoveDownUndoesMoveUp: holds only when the child list and the view have no repeats, which the ownership invariant gives for the child list.
- Forest.FilteredAtMostOffspring: assumes every view selects from its own child list, which is what `FilterVector` is taken to do.
- TaskCodec.BodyRoundTrip: requires fewer than 2^31 notes and status changes. From 2^31 up to 2^32, the count is written as a negative `int32` (`Int32Math.LargeSizeTurnsNegative`) and no note or change is read back. From 2^32 on, it wraps modulo 2^32 (`Int32Math.ToInt32Wraps`), and a wrong count is read.
- Forest.NumOffspring and Forest.NumFilteredOffspring: the C++ sums into an `int` (task.cc:265-267, 274-276). The model's sums are unbounded, so an overflow past 2^31 - 1 is not modelled.
- Tree.TaskTree.NumFilteredChildren: states a bound in terms of the filtered offspring count, not the exact value, which is the length of the view.
- Recursive walks: each carries the set of tasks not yet visited. On a cyclic arena, which the C++ would walk forever, the model stops instead.
