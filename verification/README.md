# Event-kind resolution and deletion, modelled in Dafny

This project models two pieces of a roster tool's command layer. The tool
keeps three kinds of calendar event: tutorials, labs and consultations.

- **`DeleteEventCommand`** holds a display index and three kind flags
  (`isTutorial`, `isLab`, `isConsultation`). Construction clears the flags,
  and each `mark…` call sets one flag and clears the other two. `execute`
  picks a branch from the flags. The branch checks the index against that
  kind's filtered list and deletes the event found there through the model.
- **`OpenFileCommandParser.parse`** turns tokenized arguments into an
  open-file command marked with the tutorial or the lab kind. It runs its
  checks in a fixed order and throws a parse error when one fails.

Everything is a pure function over immutable values:

- The mutable command becomes a `DeleteEventCommand` value, and each mark
  returns a new value.
- The model facade becomes `Model<E>`: three sequences, one filtered view
  per kind.
- A thrown exception becomes the `Failure` side of a `Result`.

Files:

- `wrappers.dfy`: `Option` and `Result`.
- `events.dfy`: `Kind`, `Index`, `KindFlags` (the three flags with `Mark`
  and `Dispatch`), `Model` and `RemoveFirst`.
- `delete_event_command.dfy`: the delete command.
- `open_file_command_parser.dfy`: the open-file parser.

The three per-kind branches `executeTutorial`, `executeLab` and
`executeConsultation` are symmetric. They are modelled as one function,
`ExecuteOn`, that takes the kind as a parameter.

Behaviours of the code a reader might not expect:

- An unmarked delete command does not fail. It falls through to the
  consultation branch.
- The parser does not require exactly one kind prefix. When several are
  present, a consultation prefix is rejected, and otherwise the tutorial
  prefix wins over the lab prefix.
- `execute` checks only `zeroBased >= size`. The index is a `nat`, so the
  lower bound holds by its type.
- Command equality compares only the target indices. A tutorial delete and a
  lab delete at the same index are equal even though they change different
  lists (`EqualCommandsMayDiffer`).

## Model

| member | source | states |
|---|---|---|
| Events.KindFlags.Cleared | src/main/java/seedu/address/logic/commands/DeleteEventCommand.java:40-45 | the constructor leaves no kind selected |
| DeleteEvent.DeleteEventCommand.New | src/main/java/seedu/address/logic/commands/DeleteEventCommand.java:40-45 | a new command keeps its index, selects no kind, and would run the consultation branch |
| Events.KindFlags.Mark | src/main/java/seedu/address/logic/commands/DeleteEventCommand.java:50-74 | after marking `k`, the selected kinds are exactly `{k}`, whatever was set before |
| DeleteEvent.DeleteEventCommand.MarkTutorial | src/main/java/seedu/address/logic/commands/DeleteEventCommand.java:50-54 | the index is unchanged and only tutorial is selected |
| DeleteEvent.DeleteEventCommand.MarkLab | src/main/java/seedu/address/logic/commands/DeleteEventCommand.java:59-64 | the index is unchanged and only lab is selected |
| DeleteEvent.DeleteEventCommand.MarkConsultation | src/main/java/seedu/address/logic/commands/DeleteEventCommand.java:69-74 | the index is unchanged and only consultation is selected |
| Events.LastMarkWins | src/main/java/seedu/address/logic/commands/DeleteEventCommand.java:50-74 | after any non-empty series of marks, only the last mark's kind is selected and dispatched to, whatever the starting flags |
| Events.MarksKeepAtMostOne | src/main/java/seedu/address/logic/commands/DeleteEventCommand.java:40-74 | from construction through any series of marks, at most one flag is ever set |
| Events.KindFlags.Dispatch | src/main/java/seedu/address/logic/commands/DeleteEventCommand.java:86-92 | tutorial iff `isTutorial`; lab iff not tutorial and `isLab`; consultation otherwise, including with no flag set; with exactly one flag set, its kind |
| DeleteEvent.DeleteEventCommand.Execute | src/main/java/seedu/address/logic/commands/DeleteEventCommand.java:84-92 | runs the tutorial, lab or consultation branch under the same three conditions; fails exactly when the index is past the end of the dispatched kind's view |
| DeleteEvent.DeleteEventCommand.ExecuteOn | src/main/java/seedu/address/logic/commands/DeleteEventCommand.java:102-153 | an out-of-range index fails with the invalid-event-index error and changes nothing. An in-range index passes the event at that position to the kind's delete, so the view shrinks by one. The message is "Deleted Event: " followed by the event's text, and the other two views are unchanged |
| DeleteEvent.DeleteCutsIndexedEvent | src/main/java/seedu/address/logic/commands/DeleteEventCommand.java:110-111 | in a duplicate-free view, the delete cuts out exactly the indexed position, the event no longer appears, and the other views are unchanged |
| DeleteEvent.UnmarkedIsConsultation | src/main/java/seedu/address/logic/commands/DeleteEventCommand.java:86-92 | an unmarked command deletes from the consultation view |
| DeleteEvent.MarkedExecutesOn | src/main/java/seedu/address/logic/commands/DeleteEventCommand.java:50-92 | whatever the earlier flags, marking `k` makes `execute` run the branch for `k` |
| DeleteEvent.OutOfRangeIsKindAgnostic | src/main/java/seedu/address/logic/commands/DeleteEventCommand.java:102-153 | the out-of-range failure is the same value whichever kind's branch produced it |
| DeleteEvent.EqualsIgnoresFlags | src/main/java/seedu/address/logic/commands/DeleteEventCommand.java:155-160 | equality holds iff the target indices are equal; replacing either command's flags never changes it; it is reflexive, symmetric and transitive; a marked command equals a fresh command with the same index |
| DeleteEvent.EqualCommandsMayDiffer | src/main/java/seedu/address/logic/commands/DeleteEventCommand.java:155-160 | a tutorial delete and a lab delete at index 1 are equal but produce different models |
| DeleteEvent.RemarkedCommandDeletesLab | src/main/java/seedu/address/logic/commands/DeleteEventCommand.java:59-133 | index 2 marked tutorial then lab, run on three tutorials and two labs, deletes the second lab only and reports it |
| Events.Model.Delete | src/main/java/seedu/address/logic/commands/DeleteEventCommand.java:110-111 | deleting from kind `k` removes the event from `k`'s view only |
| OpenFileParser.ArePrefixesPresent | src/main/java/seedu/address/logic/parser/OpenFileCommandParser.java:77-79 | true iff every listed prefix has a value |
| OpenFileParser.ArePrefixesAbsent | src/main/java/seedu/address/logic/parser/OpenFileCommandParser.java:86-88 | true iff no listed prefix has a value |
| OpenFileParser.EntityCheckIsComplete | src/main/java/seedu/address/logic/parser/OpenFileCommandParser.java:38-40 | the nine listed prefixes are all the contact-field prefixes, so the absence check passes iff no contact-field prefix has a value |
| OpenFileParser.KindPrefixCases | src/main/java/seedu/address/logic/parser/OpenFileCommandParser.java:45-47 | some kind prefix is present iff the tutorial, lab or consultation prefix is |
| OpenFileParser.ChosenKind | src/main/java/seedu/address/logic/parser/OpenFileCommandParser.java:60-68 | without consultation, the chosen kind is present and is never consultation; it is lab iff tutorial is absent |
| OpenFileParser.BuildCommand | src/main/java/seedu/address/logic/parser/OpenFileCommandParser.java:60-68 | an index parse failure is passed on as the error; otherwise the command carries the parsed index and only the given kind is selected |
| OpenFileParser.Parse | src/main/java/seedu/address/logic/parser/OpenFileCommandParser.java:33-71 | a contact-field prefix, no kind prefix, or a non-empty preamble each give the invalid-format error, and that error arises only then. The consultation error arises iff the format checks pass and a consultation prefix is present. Otherwise the result follows the index parse of the chosen prefix, tutorial before lab. Success always selects exactly tutorial or exactly lab |
| OpenFileParser.ParseError.FixedMessage | src/main/java/seedu/address/logic/parser/OpenFileCommandParser.java:56-58 | only the consultation rejection has fixed wording in the parser, and that wording is "Consultation events do not have files attached to them" |
| OpenFileParser.TutorialTakesPrecedence | src/main/java/seedu/address/logic/parser/OpenFileCommandParser.java:60-68 | with a tutorial prefix present, changing, adding or dropping the lab value does not change the parse |
| OpenFileParser.ConsultationAlwaysRejected | src/main/java/seedu/address/logic/parser/OpenFileCommandParser.java:45-58 | adding a consultation prefix to arguments that pass the format checks always gives the consultation error, whatever other kind prefixes are present |
| OpenFileParser.ParsedCommandDispatch | src/main/java/seedu/address/logic/parser/OpenFileCommandParser.java:56-70 | a parsed command has at most one flag set and dispatches to tutorial iff the tutorial prefix was given; it never dispatches to consultation |

## Left out

- `HelpTutorialCommand` and `HelpLabCommand` only join constant help strings and have no logic.
- `ArgumentTokenizer.tokenizeFirstPrefix` is not part of this model. The parser takes the argument map as input. The call on line 35 lists only the three kind prefixes, so contact-field prefixes may never reach the map in practice. The model checks them as written.
- `ArgumentMultimap` can hold several values per prefix. The model keeps only the value `getValue` returns.
- `ParserUtil.parseIndex` is not part of this model. It is a function parameter that returns an index or an error message.
- `OpenFileCommand` is not part of this model. Its constructor and marks are modelled as an index plus `KindFlags`, and its execution (opening a file) is I/O.
- The model's storage, filter predicates and unfiltered lists are not part of this model. A view is a sequence, and a delete removes the first element equal to the given event, as `List.remove(Object)` does.
- `MESSAGE_INVALID_EVENT_DISPLAYED_INDEX`, `MESSAGE_INVALID_COMMAND_FORMAT` and `OpenFileCommand.MESSAGE_USAGE` live in files outside this model. Those errors are datatype constructors without their wording.
- `String.format` and the events' `toString` are the `render` parameter.
- `requireNonNull(model)` is vacuous for a value parameter.
- `COMMAND_WORD` and `MESSAGE_USAGE` of the delete command do not affect its behaviour.
- DeleteCutsIndexedEvent: assumes a view never holds the same event twice; the storage that would guarantee this is not modelled. With duplicates, the first equal event would be removed instead, which need not be the one at the index.
