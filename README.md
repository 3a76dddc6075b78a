# spaced — review engine, modelled in Dafny

`spaced` is a terminal flashcard tool. Cards and notes are Markdown files. A card
lives under a `cards` directory and keeps its metadata in a YAML frontmatter
block: a `reviews` sequence of `{date, remembered}` entries and an optional
`archived` flag. A review session does the following:

- It selects the due cards with a Leitner-style scheduler.
- It shows each card one side at a time. Sides are separated by `\n---\n`.
- It records every answer in the card's file. Every answer can be undone.
- It draws a two-sided progress bar.

`cards clear-history` removes the recorded reviews from every card.

This project models that core:

| file | module | what it models |
|---|---|---|
| `util.dfy` | `Util` | Option and Result, powers of two, `join` |
| `yaml.dfy` | `Yaml` | the YAML values the frontmatter holds |
| `walk.dfy` | `Walk` | directory-walk entries, `Path::extension`, the metadata read of one entry |
| `scheduler.dfy` | `Scheduler` | `leitner` (`src/algorithms.rs`) |
| `frontmatter.dfy` | `Frontmatter` | reading and writing the frontmatter block (`src/entities/frontmatter.rs`); the line reader is a class over the file's lines |
| `cards.dfy` | `Cards` | the review history, card selection, `mark`, `unmark`, `mark_archived` (`src/entities/cards.rs`) |
| `notes.dfy` | `Notes` | note selection, in both finders (`src/entities/notes.rs`, `src/notes.rs`) |
| `sides.dfy` | `Sides` | splitting a body into sides and the text shown for a side |
| `session.dfy` | `Session` | the review loop of `src/subcommands/review/mod.rs`, as published and with its rewrites corrected |
| `legacy_session.dfy` | `LegacySession` | the older review loop of `src/main.rs` |
| `progress.dfy` | `Progress` | `print_progress` |
| `clear_history.dfy` | `ClearHistory` | `cards_clear_history` (`src/subcommands/cards.rs`, with the same function in `src/main.rs`) |

`src/subcommands/review.rs` holds an older copy of the same loop and progress bar.
Its loop (lines 68-217) makes the same transitions as the loop in `review/mod.rs`
(lines 74-223), so `Session` models both. The two copies differ only in how a card
is printed.

External inputs are parameters of the model:

- the clock: today's date as a day number, and its text form for new entries;
- the date parser, the YAML parser and the YAML serialiser;
- the files, as a map from card path to parsed document or as line sequences;
- the key presses and prompt answers, as sequences.

`Session` takes every key press in one of two builds. `AsWritten` is the loop as
published: `a` writes nothing, `mark` turns a null `reviews` into the bare entry,
`mark_archived` does not write back an existing boolean, and every rewritten body is
read back with the writer's blank line in front of it. `Session.HandleKey` and
`Session.Review`, the loop itself, run this build. `Corrected` fixes those four
points. The undo round trips `ForgetThenUndo`, `RememberThenUndo` and
`ArchiveThenUndo` are proved for `Corrected`. For the published loop,
`ForgetThenUndoAsWritten` states that `f` then `u` leaves two more newlines before
the body. `ArchiveThenUndoAsWritten` states that `a` then `u` is exact on a card
that already holds a boolean `archived`. `ArchiveThenUndoWritesFalse` states that on
a card without the key the undo writes `archived: false` and the blank line. The
invariant lemmas (`StepKeepsInv`, `RunKeepsInv`) hold in both builds.

Behaviour of the code that the model keeps, although it may surprise a reader:

- Archiving (`a`) in the current loop never writes `archived: true`. When the
  last card is archived, the session ends before an undo entry is pushed. This is
  finding 5.
- The reader does not strip the blank line the writer puts after the closing
  delimiter. This is finding 4.
- A frontmatter block with no closing delimiter is not turned into body text.
  Every line after the opener becomes frontmatter text, and the body is empty
  (`Frontmatter.UnclosedFrontmatter`).
- Only the extension `md` selects a card or note. `markdown` does not.
- In the older loop a forgotten card leaves the queue, like a remembered one, and
  the gauge's denominator counts both kinds.
- `cards clear-history --no-confirm` is described by its help text
  (`src/cli.rs:17-20`) as not asking for confirmation. The code only leaves out the
  warning banner: the `Proceed? [y/N]` prompt is still asked and still decides
  (`ClearHistory.ClearHistory`: the decision is `Decide(input)` whatever
  `noConfirm` is).
- `leitner` adds the interval to the last review's date with chrono's checked
  `Date + Duration`, which panics past chrono's last date, +262143-12-31. A card
  whose exponent reaches 27 (about 27 days of full recall in a row) therefore makes
  the selection panic (`Scheduler.OverflowFromExponent27`).

## Model

| member | source | states |
|---|---|---|
| Util.JoinWithSnoc | src/entities/frontmatter.rs:47-48 | joining one more part appends the separator and that part |
| Util.JoinWithCons | src/entities/frontmatter.rs:62 | joining a leading part: the part, then the separator and the rest (just the part when the rest is empty) |
| Walk.LastDot | src/entities/cards.rs:46-49 | None exactly when the name has no dot; otherwise the index of a dot with no dot after it |
| Walk.Extension | src/entities/cards.rs:46-49 | an extension is the dot-free text after the last dot, and there is a non-empty stem before it |
| Walk.LastDotIs | src/entities/cards.rs:46-49 | a dot with no dot after it is where `LastDot` points |
| Walk.ExtensionOfName | src/entities/cards.rs:46-50 | `stem.ext`, with a non-empty stem, has extension `ext` |
| Walk.HiddenFileHasNoExtension | src/entities/cards.rs:46-49 | a hidden file such as `.md` has no extension, so it is never a card |
| Walk.ReadMeta | src/entities/frontmatter.rs:11-25 | an unreadable file is an error; otherwise the result is the parse of the captured block (an empty mapping when there is none) |
| Scheduler.SpacingScan | src/algorithms.rs:12-33 | the spacing the loop computes is always positive |
| Scheduler.Round | src/algorithms.rs:35 | `round` gives the integer within one half, halves away from zero |
| Scheduler.IntervalDays | src/algorithms.rs:35 | the interval `max(1, round(spacing))` is at least one day |
| Scheduler.Leitner | src/algorithms.rs:3-39 | the loop returns `Due`: an empty history is due, a forgotten last review is due, and a panic (the date overflow) only happens after a remembered last review |
| Scheduler.SpacingIsPowerOfTwo | src/algorithms.rs:12-33 | the spacing is always `2^k`: the real fold and the integer-exponent fold agree on spacing, previous day and the failure flag |
| Scheduler.IntervalOfPowerOfTwo | src/algorithms.rs:35 | the interval is `2^k` days for `k >= 0` and one day otherwise |
| Scheduler.OverflowFromExponent27 | src/algorithms.rs:35 | for a last review between 1970 and chrono's last date less 2^26 days, the due test panics exactly when the exponent has reached 27: `Date + Duration` overflows past +262143-12-31 |
| Scheduler.DueInExponentModel | src/algorithms.rs:11-35 | with a remembered last review, the due test panics exactly when the last review plus `2^k` days (one day for k < 0) is past chrono's last date, and otherwise the card is due exactly when today has reached that day |
| Scheduler.DueIsMonotone | src/algorithms.rs:35 | whether the due test panics does not depend on today, and a card due on a day is due on every later day |
| Scheduler.SingleRememberedReview | src/algorithms.rs:12-35 | one remembered review on day d: not due on d, due from d + 1 on (a panic when d is chrono's last date) |
| Scheduler.OneDayEffect | src/algorithms.rs:16-32 | the reviews of one new calendar day move the exponent by +1 if all were remembered and by -1 otherwise, however many forgets the day holds; the day and the failure flag are recorded |
| Scheduler.Pow2RealNegative | src/algorithms.rs:29 | a negative exponent gives a spacing of at most one half |
| Frontmatter.SplitLines | src/entities/frontmatter.rs:15-18 | `BufRead::lines`: a file yields no lines exactly when it is empty |
| Frontmatter.LinesOfLine | src/entities/frontmatter.rs:15-18 | a line followed by a newline is read back as that line, then the rest |
| Frontmatter.LinesOfJoin | src/entities/frontmatter.rs:15-18 | clean lines joined and ended by newlines read back unchanged |
| Frontmatter.JoinOfLines | src/entities/frontmatter.rs:61-63 | splitting into lines and joining them again loses only a final newline |
| Frontmatter.UntilDelimiter | src/entities/frontmatter.rs:36-47 | the lines before the first delimiter, none of which is a delimiter |
| Frontmatter.UntilDelimiterUnique | src/entities/frontmatter.rs:36-47 | any prefix that is delimiter-free and followed by a delimiter or the end is that result |
| Frontmatter.FmText | src/entities/frontmatter.rs:27-53 | there is block text exactly when the first line is `---` |
| Frontmatter.BodyText | src/entities/frontmatter.rs:55-63 | without an opening `---` the body is every line of the file joined with newlines |
| Frontmatter.FmLines | src/entities/frontmatter.rs:27-53 | a block exists exactly when the first line is `---`, and it holds no delimiter line |
| Frontmatter.FmLineCount | src/entities/frontmatter.rs:27-53 | the reader never consumes more lines than the file has |
| Frontmatter.NoFrontmatter | src/entities/frontmatter.rs:50-52 | without an opening `---` the mapping is empty and the body is the whole file |
| Frontmatter.ClosedFrontmatter | src/entities/frontmatter.rs:35-49 | with a closing delimiter the block is the lines between the two delimiters and the body is what follows |
| Frontmatter.UnclosedFrontmatter | src/entities/frontmatter.rs:35-49 | without a closing delimiter every later line is frontmatter text and the body is empty |
| Frontmatter.LineReader.constructor | src/entities/frontmatter.rs:15-18 | the reader starts at the first line |
| Frontmatter.LineReader.NextIfDelimiter | src/entities/frontmatter.rs:28-34 | the next line is consumed exactly when it is `---` |
| Frontmatter.LineReader.TakeUntilDelimiter | src/entities/frontmatter.rs:36-47 | `map_while`: the lines before the next delimiter, consuming that delimiter too |
| Frontmatter.LineReader.ConsumeFmText | src/entities/frontmatter.rs:27-53 | returns the block text and advances past it, as `FmText` and `FmLineCount` say |
| Frontmatter.LineReader.ConsumeRestText | src/entities/frontmatter.rs:61-63 | every remaining line joined with newlines; the reader ends at the end |
| Frontmatter.ConsumeFm | src/entities/frontmatter.rs:20-25 | no block gives an empty mapping, a block is parsed, a parse failure is an error |
| Frontmatter.ReadFm | src/entities/frontmatter.rs:11-13 | the parse of the captured block; a file without an opening `---` gives an empty mapping |
| Frontmatter.ReadBody | src/entities/frontmatter.rs:55-59 | the text after the block, whether or not the block parses; a file without an opening `---` is all body |
| Frontmatter.ReadFmAndBody | src/entities/frontmatter.rs:65-68 | one pass gives `ReadDoc`: the same mapping as `read_fm` and the same body as `read_body` |
| Frontmatter.ReadDoc | src/entities/frontmatter.rs:65-68 | fails exactly when there is block text the YAML parser rejects; without a block the mapping is empty and the body is the whole file; the body never depends on the parse |
| Frontmatter.WrittenFileLayout | src/entities/frontmatter.rs:75-79 | a written file reads back as the serialised block, both delimiters consumed, then a blank line and the body's lines |
| Frontmatter.WrittenFileReadBack | src/entities/frontmatter.rs:75-79 | writing then reading gives the encoded mapping and the body with the writer's blank line in front |
| Frontmatter.RereadBodyShape | src/entities/frontmatter.rs:75-79 | the body read back from a rewrite: empty stays empty, and a body without `\r` comes back as a newline followed by the body less one final newline |
| Frontmatter.RereadAfterWrite | src/entities/frontmatter.rs:55-79 | writing a mapping and a body, then reading the file, gives the mapping and `RereadBody(body)` |
| Frontmatter.RereadAddsBlankLine | src/entities/frontmatter.rs:78 | a body without `\r` or a final newline comes back as `\n` + body after one rewrite and `\n\n` + body after two |
| Frontmatter.BlankLineComesBack | src/entities/frontmatter.rs:78 | as written, every rewrite adds a leading newline to the body (finding 4) |
| Frontmatter.StrippedRoundTrip | src/entities/frontmatter.rs:55-68 | with that blank line stripped, writing then reading gives back the mapping and the body exactly |
| Frontmatter.BodyOnlyReadBack | src/entities/frontmatter.rs:70-73 | a body-only file reads back with an empty mapping and the same body, less a final newline |
| Cards.ReviewItem | src/entities/cards.rs:191-203 | the entry is a mapping of a `date` string and a boolean `remembered` |
| Cards.ReviewItemParses | src/entities/cards.rs:86-107 | an entry made today parses back as today's review with the same answer |
| Cards.ParseItems | src/entities/cards.rs:84-110 | the entries parse in order, one review per entry, or the first bad entry's error |
| Cards.ParseItemsPrefixError | src/entities/cards.rs:86-106 | once a prefix of the entries fails, the whole list fails the same way |
| Cards.ReviewHistory | src/entities/cards.rs:79-114 | a missing or null `reviews` is an empty history, a `reviews` that is neither a sequence nor null is a ValueError, and a sequence that parses gives one review per entry |
| Cards.ReadReviewHistory | src/entities/cards.rs:79-114 | the loop returns `ReviewHistory`, and a `reviews` sequence that parses gives one review per entry |
| Cards.DueByMetadata | src/entities/cards.rs:60-77 | `archived: true` is never due; otherwise an unreadable history panics and an empty history is due |
| Cards.ReviewTime | src/entities/cards.rs:60-77 | `all` is due without reading the file; otherwise an unreadable metadata block panics, and a readable one is decided by `DueByMetadata` |
| Cards.Keep | src/entities/cards.rs:28-57 | a walk entry that is not a Markdown file under `cards` is never kept; with `all` every card file is kept |
| Cards.GetCards | src/entities/cards.rs:26-58 | it panics exactly when some entry's check panics; otherwise an entry is kept exactly when it is walked and its check accepts it, and no more entries are kept than walked |
| Cards.GetCardsConcat | src/entities/cards.rs:28-57 | selection keeps walk order: a concatenated walk selects the two parts' cards one after the other |
| Cards.AllSelectsEveryCardFile | src/entities/cards.rs:60-63 | with `all` the selection never panics and keeps exactly the card files |
| Cards.MarkOnNullBreaksHistory | src/entities/cards.rs:128-133 | as written, marking a card whose `reviews` is null makes its history unreadable (finding 1) |
| Cards.MarkAsWritten | src/entities/cards.rs:116-145 | `mark` as published: an unsupported `reviews` panics, the body is kept and only `reviews` changes; a null `reviews` becomes the bare entry; every other case is the corrected `MarkDoc` |
| Cards.MarkDoc | src/entities/cards.rs:116-145 | corrected `mark` (a null `reviews` starts a sequence, as a missing one does): an unsupported `reviews` panics; otherwise only `reviews` changes, it becomes a sequence, and it ends with today's entry |
| Cards.MarkAppendsReview | src/entities/cards.rs:116-145 | corrected `mark` appends exactly today's review to the parsed history |
| Cards.UnmarkDoc | src/entities/cards.rs:147-166 | panics unless `reviews` is a sequence; otherwise only `reviews` changes |
| Cards.UnmarkDropsLastReview | src/entities/cards.rs:155-157 | unmarking removes exactly the most recent review |
| Cards.UnmarkUndoesMark | src/entities/cards.rs:116-166 | corrected `mark`, then `unmark`, restores the history, the body and every other key; a document whose `reviews` was a sequence is restored exactly |
| Cards.UnmarkRestoresSequence | src/entities/cards.rs:116-166 | `mark` as published, then `unmark`, on a `reviews` sequence gives back the metadata exactly, with any body |
| Cards.UnarchiveIsLost | src/entities/cards.rs:174-178 | as written, un-archiving a card already saying `archived: true` leaves the file unchanged, so the card is never selected again (finding 2) |
| Cards.MarkArchivedDoc | src/entities/cards.rs:168-189 | corrected `mark_archived` (an existing boolean is written back too): a non-boolean `archived` panics; otherwise the file says `archived: <value>` and nothing else changes |
| Cards.MarkArchivedAsWritten | src/entities/cards.rs:168-189 | `mark_archived` as published: a non-boolean `archived` panics, an existing boolean writes nothing, and a missing key is written as `archived: <value>` |
| Cards.ArchiveDecidesSelection | src/entities/cards.rs:60-77 | an archived card is never due; un-archiving hands the decision back to the scheduler on the unchanged history |
| Cards.ForgottenCardIsDue | src/entities/cards.rs:116-145 | a card marked forgotten today by the corrected `mark` is due today unless archived |
| Cards.RememberedCardWaits | src/entities/cards.rs:116-145 | a card marked remembered today by the corrected `mark` is not due again today, unless the next date overflows chrono's range, which panics |
| Notes.IsSpaced | src/entities/notes.rs:50-58 | a read error is passed on; a missing `spaced` is false; a boolean is its value; anything else is a ValueError |
| Notes.KeepNote | src/entities/notes.rs:16-36 | an entry that is not a Markdown file under `notes` is never kept; with `all` every such file is kept; otherwise it panics exactly when `is_spaced` fails, and a kept note is not spaced |
| Notes.GetNotes | src/entities/notes.rs:9-48 | it panics exactly when some entry's spaced check fails; otherwise the kept entries are exactly those that pass |
| Notes.AllNotesKeepsEveryNoteFile | src/entities/notes.rs:24-26 | with `all` the selection never panics and keeps exactly the Markdown files under `notes` |
| Notes.SpacedNotesAreHidden | src/entities/notes.rs:25-29 | without `all` a note saying `spaced: true` is never kept |
| Notes.SpacedTestsAgree | src/notes.rs:48-59 | on a file for which the older reader gives the mapping the current reader gives (or the same read error), the older `spaced` gives the same answers and the same value error as `is_spaced` |
| Notes.LegacySpaced | src/notes.rs:48-59 | over the older reader's value: a read error is passed on; a value that is not a mapping, or a missing `spaced`, is false; a successful answer is the stored boolean; a ValueError exactly when `spaced` holds a non-boolean |
| Notes.LegacyGetNotes | src/notes.rs:7-46 | the older finder keeps at most the walked entries |
| Notes.FindersAgree | src/notes.rs:7-46 | where the two readers agree on every walked file, both finders select the same notes in the same order and panic on the same walks |
| Notes.NonMappingBlockSplitsFinders | src/notes.rs:22-26 | where they do not, a note whose block is YAML but not a mapping is kept by the older finder and makes the current one panic |
| Sides.FindSeparator | src/subcommands/review/mod.rs:63 | the first position of `\n---\n`, or None when there is none |
| Sides.SplitSides | src/subcommands/review/mod.rs:63 | `split("\n---\n")` gives at least one side |
| Sides.SplitThenJoin | src/subcommands/review/mod.rs:63 | joining the sides with the separator gives the body back |
| Sides.SidesFreeOfSeparator | src/subcommands/review/mod.rs:63 | no side contains the separator |
| Sides.Shown | src/subcommands/review/mod.rs:633 | the first side alone is shown first, and the side just revealed is the end of the text shown |
| Sides.FlipRevealsNextSide | src/subcommands/review/mod.rs:633 | showing one more side appends the separator and the next side to the text shown |
| Sides.ShownBounds | src/subcommands/review/mod.rs:633 | the first side alone is shown first, and the last side shows the whole body |
| Sides.Crlf | src/subcommands/review.rs:238-241 | one character is added per line feed |
| Sides.CrlfCounts | src/subcommands/review.rs:238-241 | `replace("\n", "\r\n")` adds one carriage return per line feed and keeps the count of every other character |
| Sides.CrlfPrecedes | src/subcommands/review.rs:238-241 | every line feed of the result follows a carriage return |
| Sides.CrlfRoundTrip | src/subcommands/review.rs:238-241 | for text without `\r`, turning each `\r\n` back into `\n` gives the text back; with `CrlfPrecedes` and `CrlfCounts`, the carriage returns added are exactly one before each line feed |
| Sides.CardText | src/subcommands/review.rs:236-241 | the printed text, with its carriage returns removed, is the shown text (for text without `\r`) |
| Session.Store | src/entities/cards.rs:116-189 | a panicking rewrite gives None; no write leaves the files as they were; a rewrite stores the new metadata for `c` with the written body (corrected) or the body read back (`RereadBody`, as published); no other file changes |
| Session.Mark | src/entities/cards.rs:116-145 | `mark` on a card file succeeds exactly when the file exists and the corrected mark does; only `reviews` of that card changes; corrected, the file becomes the marked document |
| Session.Unmark | src/entities/cards.rs:147-166 | `unmark` succeeds exactly when the file exists and its `reviews` is a sequence; only `reviews` of that card changes |
| Session.SetArchived | src/entities/cards.rs:168-189 | `mark_archived` succeeds exactly when the file exists and `archived` is absent or boolean; corrected, the file says `archived: <value>`; as published, an existing boolean leaves every file unchanged |
| Session.Show | src/subcommands/review/mod.rs:92-94 | an unreadable front card is a crash; otherwise the front card's sides are shown from the first side, and nothing else changes |
| Session.Start | src/subcommands/review/mod.rs:53-63 | an empty queue ends at once; otherwise the whole queue is shown with zero counters and an empty undo stack |
| Session.Remember | src/subcommands/review/mod.rs:84-96 | in either build, when the loop goes on it is ready for the next key and still shows the front card's sides; no file disappears |
| Session.SkipCard | src/subcommands/review/mod.rs:103-121 | as for `Remember` |
| Session.ForgetCard | src/subcommands/review/mod.rs:122-138 | as for `Remember` |
| Session.ArchiveCard | src/subcommands/review/mod.rs:139-155 | as for `Remember`; as published nothing is written, corrected the card's file gets `archived: true` (finding 5) |
| Session.RevertRemembered | src/subcommands/review/mod.rs:162-166 | as for `Remember` |
| Session.RevertForgotten | src/subcommands/review/mod.rs:167-172 | as for `Remember` |
| Session.RevertArchived | src/subcommands/review/mod.rs:173-176 | as for `Remember` |
| Session.RevertSkip | src/subcommands/review/mod.rs:177-180 | as for `Remember` |
| Session.UndoLast | src/subcommands/review/mod.rs:156-190 | as for `Remember` |
| Session.Step | src/subcommands/review/mod.rs:74-223 | as for `Remember`, for every key, in either build |
| Session.StartEstablishesInv | src/subcommands/review/mod.rs:53-63 | a session over readable files starts in the invariant with every card queued |
| Session.RememberKeeps | src/subcommands/review/mod.rs:84-96 | remembering keeps every card, counted once in the queue or on the undo stack, and the counters match the stack |
| Session.SkipKeeps | src/subcommands/review/mod.rs:103-121 | as for `RememberKeeps` |
| Session.ForgetKeeps | src/subcommands/review/mod.rs:122-138 | as for `RememberKeeps` |
| Session.ArchiveKeeps | src/subcommands/review/mod.rs:139-155 | as for `RememberKeeps` |
| Session.UndoKeeps | src/subcommands/review/mod.rs:156-190 | as for `RememberKeeps` |
| Session.RevertKeeps | src/subcommands/review/mod.rs:160-181 | reverting the top entry of a replayable stack keeps every card and leaves a replayable stack |
| Session.RevertedQueue | src/subcommands/review/mod.rs:160-181 | each undo leaves the queue its entry restores, and the matching counter goes down by one |
| Session.StepQueue | src/subcommands/review/mod.rs:74-223 | every step the loop survives keeps the cards and the counters |
| Session.StepKeepsInv | src/subcommands/review/mod.rs:74-223 | in either build, every step the loop survives keeps the invariant and the same cards |
| Session.UndoFindsItsCounter | src/subcommands/review/mod.rs:163-168 | an undone mark always finds its counter positive, so the `usize` subtraction never underflows |
| Session.SkipThenUndo | src/subcommands/review/mod.rs:103-121 | skip then undo gives the session back exactly, from the first side |
| Session.ForgetThenUndo | src/subcommands/review/mod.rs:122-172 | corrected: forget then undo gives the session back exactly, from the first side, with the card unmarked |
| Session.ForgetThenUndoAsWritten | src/subcommands/review/mod.rs:122-172 | as published, on a card whose `reviews` is a sequence: forget then undo gives back the queue, the undo stack, the counter and the metadata, and the body comes back with two more leading newlines (finding 4) |
| Session.UndoForgetAsWritten | src/subcommands/review/mod.rs:167-172 | as published, undoing the forget of a card that `f` rewrote moves it back to the front with its metadata restored and one more leading newline |
| Session.UnmarkAfterMarkAsWritten | src/entities/cards.rs:116-166 | as published, `unmark` after `mark` on a sequence restores the metadata, and the body read back gains a second leading newline |
| Session.RememberStep | src/subcommands/review/mod.rs:84-96 | corrected: the state space on the last side leaves in a longer queue: the card marked and off the queue behind a remembered entry, the counter up, the next card shown |
| Session.ArchiveStep | src/subcommands/review/mod.rs:139-155 | the state the corrected `a` leaves in a longer queue: the card archived and off the queue behind an archive entry, the next card shown |
| Session.ForgetStep | src/subcommands/review/mod.rs:122-138 | in either build, the state `f` leaves: the card marked, stored as read back, and moved to the back, the counter up, the next card shown |
| Session.MarkStores | src/entities/cards.rs:116-145 | a mark that rewrites stores, for the marked card only, the document read back from the written file |
| Session.RememberThenUndo | src/subcommands/review/mod.rs:84-166 | corrected: remember then undo, on a longer queue, gives the session back exactly, with the card unmarked |
| Session.ArchiveThenUndo | src/subcommands/review/mod.rs:139-176 | corrected: archive then undo, on a longer queue, gives the session back exactly, with the card saying `archived: false` |
| Session.ArchiveThenUndoWritesFalse | src/subcommands/review/mod.rs:139-176 | as published, on a card without an `archived` key: archive then undo brings the queue, stack and counters back, but the card's file now says `archived: false` and its body is read back with the writer's blank line in front, shown from the first side of that body |
| Session.ArchiveThenUndoAsWritten | src/subcommands/review/mod.rs:139-176 | as published, on a card already holding a boolean `archived`: archive then undo gives the session back exactly, from the first side, and no file is written |
| Session.UndoForgetRestoresHistory | src/subcommands/review/mod.rs:122-172 | corrected: after forget and undo the card's review history and body are what they were |
| Session.ArchiveIsNotPersisted | src/subcommands/review/mod.rs:139-155 | as published, archiving changes no file, so a due card is due again next session (finding 5) |
| Session.ArchivedCardLeavesSelection | src/subcommands/review/mod.rs:139-155 | as corrected, the archived card is never selected again and its body is unchanged |
| Session.Run | src/subcommands/review/mod.rs:74-223 | the keys in order, in either build: a stopped session stays stopped, and a running one is ready for the next key |
| Session.RunStops | src/subcommands/review/mod.rs:74-79 | once the loop has stopped, the rest of the keys change nothing |
| Session.RunKeepsInv | src/subcommands/review/mod.rs:74-223 | in either build, a whole session over readable files keeps the invariant and every card of the queue |
| Session.HandleKey | src/subcommands/review/mod.rs:75-222 | one pass of the published loop body, on the loop's variables, is `Step` in the `AsWritten` build: `a` writes nothing and every rewrite stores the body read back |
| Session.Review | src/subcommands/review/mod.rs:44-228 | the published loop over the given keys is `Run` from `Start` in the `AsWritten` build |
| LegacySession.Draw | src/main.rs:274-280 | the draw panics exactly when the front card is unreadable or more sides are asked for than it has; otherwise it records the number of sides |
| LegacySession.Start | src/main.rs:221-233 | an empty queue is reported and nothing runs; otherwise the queue is shown from side 1 with an empty undo stack |
| LegacySession.Handle | src/main.rs:312-354 | a key panics exactly when `u` pops a mark whose counter is zero; bodies never change; at most one write is asked for: `f` and space on the last side mark the front card and drop it from the queue, and undoing a mark unmarks it and puts it back in front |
| LegacySession.Step | src/main.rs:307-364 | a step the loop survives leaves a non-empty queue |
| LegacySession.StepAsWritten | src/main.rs:307-364 | the loop as published: a step it survives leaves a non-empty queue, and on every key but `u` it is the corrected step |
| LegacySession.StaleSideCrashes | src/main.rs:334-354 | as written, remember a one-sided card, flip a two-sided one, undo: the draw panics; with the side reset it goes on (finding 3) |
| LegacySession.DenominatorIsConstant | src/main.rs:267-268 | while cards remain, the gauge's denominator is the size of the starting queue |
| LegacySession.HandleKeeps | src/main.rs:312-354 | whenever the counters count the marks on the undo stack, the corrected key handling never panics, keeps every card (queued or marked) and keeps the counters counting the marks |
| LegacySession.SkipKeeps | src/main.rs:312-317 | `l` never panics and keeps every card and the counters |
| LegacySession.SpaceKeeps | src/main.rs:318-327 | space, flipping a side or marking the card remembered, never panics and keeps every card and the counters |
| LegacySession.ForgotKeeps | src/main.rs:328-333 | `f` never panics and keeps every card and the counters |
| LegacySession.UndoMarkKeeps | src/main.rs:336-344 | undoing a mark finds its counter positive, so it never underflows, and keeps every card and the counters |
| LegacySession.UndoSkipKeeps | src/main.rs:345-351 | undoing a skip on a non-empty queue never panics and keeps every card and the counters |
| LegacySession.HandleSide | src/main.rs:312-354 | after a key the side counter is 1, or a valid side of the same front card |
| LegacySession.StepKeepsInv | src/main.rs:307-364 | a corrected step never panics and keeps the invariant and every card |
| LegacySession.StartEstablishesInv | src/main.rs:221-233 | a session over readable files starts in the invariant with every card queued |
| LegacySession.Run | src/main.rs:307-364 | the keys in order: a stopped session stays stopped, and a running one is ready for the next key |
| LegacySession.RunNeverCrashes | src/main.rs:307-364 | in a corrected session over readable files the loop itself never panics (the card store is not modelled), and the denominator stays the starting queue's size |
| LegacySession.RunConserves | src/main.rs:307-364 | every card of the queue is kept through a whole corrected session |
| LegacySession.RunStops | src/main.rs:359-361 | once the loop has stopped, the rest of the keys change nothing |
| LegacySession.HandleKey | src/main.rs:308-364 | one pass of the corrected loop body is `Step` |
| LegacySession.Review | src/main.rs:212-364 | the corrected loop is `Run` from `Start`, and over readable files the loop itself never panics |
| Progress.Decimal | src/subcommands/review/mod.rs:669 | a number prints as decimal digits without leading zeros that read back as the number |
| Progress.Label | src/subcommands/review/mod.rs:669 | the label is digits, one `/`, digits: the part before the slash reads back as the remembered count and the part after as the total, and neither part has a leading zero, so the label is the one decimal rendering |
| Progress.LabelStart | src/subcommands/review/mod.rs:671-672 | the label starts at `ceil((cols - len) / 2)`: it fits, and it is centred to within one cell, leaning right |
| Progress.Layout | src/subcommands/review/mod.rs:648-674 | a label wider than the row, or a row of no columns, underflows and panics |
| Progress.LabelBetween | src/subcommands/review/mod.rs:676-686 | pieces before the label that fill the cells up to its centred start, and pieces after it that fill the rest, give a row of `cols` cells with the label centred |
| Progress.LayoutFits | src/subcommands/review/mod.rs:648-791 | when the label fits and the bars stay in the row, no branch underflows, indexes past a table or slices out of range, and the row is `cols` cells with the label centred |
| Progress.MeetingBeforeLabel | src/subcommands/review/mod.rs:675-686 | the bars meet left of the label: the row fits and the label is centred |
| Progress.MeetingInLabel | src/subcommands/review/mod.rs:687-696 | the bars meet inside the label: as above |
| Progress.MeetingAfterLabel | src/subcommands/review/mod.rs:697-706 | the bars meet right of the label: as above |
| Progress.RedReachesLabel | src/subcommands/review/mod.rs:709-722 | the red bar reaches the label: as above |
| Progress.RedEdgeInLabel | src/subcommands/review/mod.rs:723-736 | only the red edge is inside the label: as above |
| Progress.BothEdgesInLabel | src/subcommands/review/mod.rs:737-750 | both edges are inside the label: as above |
| Progress.LabelBetweenBars | src/subcommands/review/mod.rs:751-762 | the label lies between the bars: as above |
| Progress.GreenEdgeInLabel | src/subcommands/review/mod.rs:763-774 | only the green edge is inside the label: as above |
| Progress.GreenPastLabel | src/subcommands/review/mod.rs:775-786 | the green bar passes the label: as above |
| Progress.EighthOf | src/subcommands/review/mod.rs:680 | the eighth-cell index of a remainder is below 8 |
| Progress.ExactBars | src/subcommands/review/mod.rs:659-667 | exact bar lengths give table indices below 8 and roundings of 0 or 1 |
| Progress.ExactBarsFit | src/subcommands/review/mod.rs:659-674 | while cards remain and the label fits, the exact lengths meet the layout's requirements |
| ClearHistory.Classify | src/subcommands/cards.rs:56-67 | a line proceeds exactly when it is one of the five yes spellings, and aborts exactly when it is one of the six no spellings |
| ClearHistory.AnswersAreExclusive | src/subcommands/cards.rs:57-58 | no line both proceeds and aborts; an empty line aborts |
| ClearHistory.OnlyListedSpellingsCount | src/subcommands/cards.rs:55-59 | mixed case, a missing newline, leading space and an empty read are invalid |
| ClearHistory.Decide | src/subcommands/cards.rs:50-70 | the loop has no answer exactly when every line read was invalid |
| ClearHistory.InvalidLinesAreSkipped | src/subcommands/cards.rs:59-66 | invalid lines are ignored: the decision is that of the lines after them |
| ClearHistory.FirstAnswerDecides | src/subcommands/cards.rs:50-70 | the first yes or no decides, whatever follows |
| ClearHistory.Prompt | src/subcommands/cards.rs:50-70 | the loop returns `Decide`; every line before the deciding one was read and invalid |
| ClearHistory.ClearDoc | src/subcommands/cards.rs:78-90 | only `reviews` is removed and the body is kept; the file is body-only exactly when no other key is left |
| ClearHistory.ClearingEmptiesHistory | src/subcommands/cards.rs:78-90 | a cleared card's history is empty, its other keys and body are kept, and clearing again changes nothing |
| ClearHistory.ClearedCardIsDue | src/subcommands/cards.rs:78 | a cleared card that is not archived is due on every day |
| ClearHistory.ClearedFileReadsBack | src/subcommands/cards.rs:80-90 | the written file reads back with the mapping without `reviews`, so an empty history |
| ClearHistory.ClearEachClearsInOrder | src/subcommands/cards.rs:72-91 | the cards are cleared in order, each write the next card's file without `reviews`; the pass finishes, writing every card, exactly when every file is readable, and otherwise stops at the first unreadable one |
| ClearHistory.ClearHistory | src/subcommands/cards.rs:20-92 | no cards: nothing happens; otherwise the banner is shown exactly without `--no-confirm`, every card is listed, and nothing is written unless the answer is yes |
| ClearHistory.ConfirmedClearsEveryCard | src/main.rs:160-179 | after a yes over readable files each card is written once, in order, without `reviews` and with an empty history |
| ClearHistory.CardsClearHistory | src/subcommands/cards.rs:20-92 | the command, with its loops, is `ClearHistory` |
| ClearHistory.ClearCards | src/subcommands/cards.rs:72-91 | the rewrite loop is `ClearEach` |

## Left out

- The real clock, the chrono date parser, the YAML parser and serialiser, file I/O errors other than an unreadable card, and invalid UTF-8. They are parameters or outcomes of the model.
- `f32`/`f64` arithmetic. The scheduler uses exact reals. The progress bar takes the floored lengths, eighth indices and roundings as inputs; `ExactBars` gives the exact-arithmetic values.
- Terminal drawing: raw mode, the alternate screen, the `tui` gauge and hint line of the older loop, and the recap statistics printed after it.
- The editor launched by `e`. The model takes the edited document as part of the key press.
- `print_card` text wrapping and the removal of HTML comments before printing. The model stops at the shown sides and the `\r\n` conversion.
- The pandoc rendering path, the importers, the command-line parsing, and the note and card listing order beyond walk order.
- YAML key order. A mapping is an unordered map.
- The panic of `leitner` callers on an unknown algorithm name. The command line only lets `leitner` and `all` through.
- `mark`, `unmark` and `mark_archived` read the card's file before rewriting it. The model starts from the parsed document; a read error is the card missing from `files`.
- The metadata reader of the older note finder (`src/frontmatter.rs`, `read_fm`) is not part of this model. Notes.LegacySpaced, Notes.LegacyGetNotes and Notes.FindersAgree take it as a parameter giving a YAML value of any shape; the agreement with the current finder is proved only for files on which it gives the mapping the current reader gives.
- The card store of the older loop (`src/cards.rs`) is not part of this model. Its rewrites are recorded as a list of writes.
- ClearHistory.Decide: at end of input `read_line` returns an empty string, which is invalid, so the prompt would ask forever. The model gives `NoAnswer` when the lines given run out.
- Session.Remember, Session.SkipCard, Session.ForgetCard, Session.ArchiveCard, Session.UndoLast, Session.Step and the Revert functions state only that the loop may go on and no file disappears, in either build. What each does to the queue, counters and files is stated by the `*Keeps`, `*Step`, `*ThenUndo`, `*ThenUndoAsWritten` and `RevertedQueue` lemmas.
- The edited document of `e` is a parsed document. An edit that leaves frontmatter the YAML parser rejects cannot be expressed: `read_body` would still show the card, and the next `mark` on it would panic.
- The YAML serialiser is a parameter. The read-back lemmas (`Frontmatter.RereadAfterWrite` and those built on it) require that the parser gives back the mapping the serialiser wrote, and that its output has the shape `serde_yaml` produces: a `---` line, then lines that are not delimiters.
- Scheduler.SpacingScan: the spacing is an exact real, so `2^k` is exact. The `f64` loop agrees wherever it matters. Below `2^-1074` it underflows to 0, and the interval is one day either way. Long before `2^1024` the date overflow panics.
- Scheduler.Due: the `Duration::days` panic for an interval past about 10^11 days and the overflow of `Date + Duration` are one outcome, `Err(Panic)`. Both happen only when the next date is past chrono's last date.
- Session.Show, Session.Start: `files` holds parsed documents, so a card whose frontmatter the YAML parser rejects is treated as unreadable. The model crashes on it where the published loop, which shows a card through `read_body` without parsing its frontmatter, still shows it under `--algorithm all` (and skips, flips or quits on it). The panic comes only at the first `mark`, `unmark` or `mark_archived` on that card.
- LegacySession.Step: states only that the queue is non-empty while running. The corrected behaviour is stated by `StepKeepsInv` and `RunNeverCrashes`.

## Findings

| source | as written | input that shows it | evidently intended | confidence | as-written member | corrected member |
|---|---|---|---|---|---|---|
| src/entities/cards.rs:128-133 | `mark` on a card whose `reviews` is null replaces it with the bare entry, not a one-entry sequence | a card with `reviews:` (null), marked once | start a one-entry `reviews` sequence, as for a missing key | high, not executed | Cards.MarkOnNullBreaksHistory | Cards.MarkAppendsReview |
| src/entities/cards.rs:174-178 | `mark_archived` with an existing boolean updates it in memory and never writes the file | a card with `archived: true`, un-archived | write the updated flag, as for a missing key | high, not executed | Cards.UnarchiveIsLost | Cards.ArchiveDecidesSelection |
| src/main.rs:334-354 | undo keeps the side counter of the card that was showing, and the next draw drains more sides than the restored card has | a one-sided card, then a two-sided one: space, space, `u` | show the restored card from its first side | high, not executed | LegacySession.StaleSideCrashes | LegacySession.RunNeverCrashes |
| src/entities/frontmatter.rs:78 | the writer puts a blank line after the closing delimiter, and the reader keeps it as part of the body | body `Q`, written and read back, gives body `\nQ`; in a session, `f` then `u` leaves `\n\nQ` (`Session.ForgetThenUndoAsWritten`) | the blank line is a separator and is dropped on read | medium, not executed | Frontmatter.BlankLineComesBack | Frontmatter.StrippedRoundTrip |
| src/subcommands/review/mod.rs:139-155 | `a` removes the card from the queue but never writes `archived: true` | archive a due card, then start a new session | the card is archived on disk and is never selected again | high, not executed | Session.ArchiveIsNotPersisted | Session.ArchivedCardLeavesSelection |
