# A model of aerc's trickiest logic

aerc is an e-mail client for the terminal. This project models the parts of it that keep the most state or branch the
most, and proves what they promise.

- **Re-wrapping format=flowed text** (`filters/wrap.c`): `Lines`, `WideText`, `WrapParagraph`, `WrapWriter`,
  `WrapMarkers`, `WrapParsed`, `WrapProperties`, `WrapLines`, `WrapFilter`, `WrapGroups`, `WrapEndless`. Lines are
  split into quote prefix, indent and text, joined into paragraphs, and written within a margin. No visible character
  is lost or moved to another quote level, no words are broken or run together, wrapped prose keeps the margin, and
  the writing loop ends exactly when a stated condition on the text holds. The program follows sections 4.1, 4.3 and
  4.5 of RFC 3676 loosely.
- **Coloring plain text** (`filters/colorize.c`): `ColorizeText`, `ColorizeSpans`, `ColorizeUrls`, `ColorizeLines`,
  `ColorizeStates`, `ColorizeLooks`, `ColorizeStats`, `ColorizeFilter`. A line machine, a scanner for URLs with
  balanced brackets and a matcher for code spans print a line in many pieces. What is visible is one tab expansion of
  the line, each character is in the look that its place in the line and the lines before it give it, and each style
  is switched off again.
- **Threads in the message list** (`lib/threadbuilder.go`, `lib/msgstore.go`, `lib/iterator`): `ThreadTree`,
  `ThreadNodes`, `ThreadList`, `ThreadOrder`, `ThreadFolding`, `ThreadCarry`, `ThreadStore`. Folding works on counters
  in a forest of linked nodes; the counters mean a set of folded messages, and the flat list is the forest as
  displayed.
- **The message list and its cursor** (`lib/msgstore.go`, `lib/iterator/index.go`, `commands/msg/delete.go`):
  `MailList`, `ThreadPane`, `MailStore`, `BodyFetching`, `MessageCursor`, `ResultCursor`. The store follows the
  worker's messages, keeps its list of threads up to date, fetches headers and bodies, and moves its cursor.
- **Key bindings** (`config/binds.go`): `KeyBinds`, `KeyLayers`, `KeyContexts`, `KeyStrokes`, `KeyRoundTrip`,
  `KeyStrings`, `KeyWeights`, `KeyLists`, `KeyNames`. Layers of bindings are merged, contextual ones are cached, and
  strokes are printed and parsed.
- **The directory tree** (`app/dirtree.go`): `DirPaths`, `DirTree`, `FolderSort`, `DirBuild`, `DirCursor`. A list of
  folders becomes a tree of paths, its top level is put in order, and the cursor goes around its visible nodes.
- **MIME parts** (`lib/structure_helpers.go`, `models/models.go`, `lib/inlineimages.go`): `GoSlices`, `MimeParts`.
  Paths of parts, numbered as in section 6.4.5 of RFC 3501, are enumerated and resolved.

Code that changes state is modelled by classes and methods, each proved against a function that says what it computes;
the lemmas about these functions state the results. `Prelude` holds what all modules share.

Settings, the C library's view of characters, the style set, regular expressions, the matching of folder patterns, the
table of key names and `strings.ToLower` are parameters. The expressions of `filters/colorize.c` are oracles that may
give any answer: matches lie within the line, and those of the URL expression are not empty.

## What the code does not do

Some properties hold only under a condition, which is then stated exactly.

- `write_paragraph` does not end when an ideograph that may be split at stands before a part too wide for the line
  (`EndsIffNotJammed`); for every margin below 8189 there is an input line of that kind that fits into the buffer for
  lines (`IdeographLineNeverEnds`). The method that models it is given a number of turns for that reason.
- A text with an unprintable character counts as having no width and is not wrapped. The margin is kept, measured in
  columns, unless such a text can be broken and is too wide (`MarginIsKeptIff`).
- Text after a carriage return in the middle of a line is dropped (`SanitizedKeepsInk`).
- Folding or toggling a message that is itself hidden may leave counters that mean no set of folded messages
  (`RepresentedIffSafe`, `HiddenToggleBreaks`); `:fold -a` leaves the cursor on such a message.
- So may a new message below a folded one: it starts unfolded, beside replies that are hidden (`CarriedIff`,
  `NewReplyBreaks`).
- A list of key strokes with an unprintable one is not read back from its text, unless that stroke is a backslash at
  the very end (`ReadsBackIff`).
- Merging bindings is not associative (`AssociativeIff`, `ErasureIsForgotten`).
- The comment on `insertUid` says that the index counts from 0, but index 0 appends (`IndexIsPlaceIffNotHead`). The
  model follows the code.
- `FetchFull` drops the callback for a message that is pending already (`FetchRegisters`).
- A folder that is empty or starts with the separator gives a node without a path (`PrefixesIffRooted`).

## Model

| member | source | states |
|---|---|---|
| WrapParagraph.SanitizeLine | filters/wrap.c:487-504 | computes the line up to its first CR or LF, each tab as eight spaces |
| WrapParagraph.SanitizedKeepsInk | filters/wrap.c:483-504 | sanitizing keeps every visible character of a line if and only if only white space follows its first CR or LF |
| WrapParagraph.ListItemOffset | filters/wrap.c:170-212 | the character-by-character scan finds the list marker |
| WrapMarkers.ListItemIs | filters/wrap.c:170-212 | the marker found has length e + 1 if and only if the text starts with a bullet, or a short number or roman numeral and its closing character, of length e, and one space |
| WrapMarkers.NoListItemIs | filters/wrap.c:170-212 | none is found if and only if nothing of that kind starts the text |
| WrapParagraph.ParseLine | filters/wrap.c:257-327 | splits a line into quote prefix, indent and text, and works out its ratio of letters and its flowed mark |
| WrapParsed.ParsedIs | filters/wrap.c:257-327 | each field from the line alone: quote prefix; indent as long as white space and marker before the text; text less the white space at its end; ratio of letters; flowed if there is such white space; list item if there is a marker |
| WrapParagraph.ParsedRatioIsPercentage | filters/wrap.c:295-324 | every parsed ratio lies within 0..100 |
| WrapParagraph.Paragraph.Join | filters/wrap.c:360-384 | updates a paragraph in place: its text grows by the trimmed text of the next line, its ratio becomes the mean, flowed is taken over |
| WrapWriter.FindSplit | filters/wrap.c:444-455 | the scan with its running width finds the break that the two lemmas below single out |
| WrapWriter.BestSplitIsBreak | filters/wrap.c:444-455 | the place chosen is the last split point that fits or, when none fits, the first one; none is found only in text without split points |
| WrapWriter.BreakIsUnique | filters/wrap.c:447-454 | there is at most one such place |
| WrapWriter.WriteParagraph | filters/wrap.c:424-480 | the loop writes what the specification of one turn writes, turn after turn |
| WrapLines.NextLineIs | filters/wrap.c:435-479 | of a printable paragraph, all that is left goes on one line if it fits, is no prose or cannot be broken; else the line ends at the one right place to break, and the rest starts at the next word |
| WrapLines.LinesAreIndented | filters/wrap.c:427-479 | every line has the quote prefix, and every line but the first the indent |
| WrapWriter.TurnConserves | filters/wrap.c:435-479 | written and unwritten text make up the same words before and after every turn |
| WrapWriter.RunConserves | filters/wrap.c:435-479 | so do they after any number of turns, for every paragraph whose indent is blank |
| WrapProperties.MarginBound | filters/wrap.c:424-480 | however long the loop has run, every line of a printable prose paragraph is within the margin or has no split point |
| WrapProperties.RunExact | filters/wrap.c:424-480 | for printable text whose width fits into `size_t`: at any time `remain` is the exact width of the text that is not written yet |
| WrapProperties.MarginIsKeptIff | filters/wrap.c:412-480 | for prose whose quote prefix fits: all lines of all runs keep the margin, measured in columns, if and only if the text is printable, or cannot be broken, or fits as it is |
| WrapProperties.EndsIffNotJammed | filters/wrap.c:435-479 | the loop ends if and only if, in what follows the first line, no CJK split point stands before a part too wide for the line |
| WrapProperties.EndsIffNotJammedUnindented | filters/wrap.c:435-479 | without an indent that is a condition on the text alone |
| WrapProperties.EndsWithoutIdeographs | filters/wrap.c:395-404 | text that can only be broken at white space is always written to its end |
| WrapProperties.IdeographBeforeLongWord | filters/wrap.c:456-471 | a family of paragraphs on which the loop never ends: the search picks split 0 and makes no progress |
| WrapEndless.IdeographLineNeverEnds | filters/wrap.c:424-595 | for every valid setting the program never ends on an input line made of an ideograph and a word longer than the margin, if it fits into the buffer for lines |
| WrapFilter.Rewrap | filters/wrap.c:574-595 | the main loop writes the paragraphs that parsing and grouping the lines gives, in order |
| WrapGroups.LinesFallIntoGroups | filters/wrap.c:574-590 | in each group every line goes on those before it, by the fields of the lines: flowed or reflow, no list item, same quotes and indent, not blank, ratios of prose, no signature delimiter before it; no group goes on with the first line of the next |
| WrapGroups.GroupingIsUnique | filters/wrap.c:329-358 | that leaves one way to group any lines |
| WrapGroups.ContinuationIs | filters/wrap.c:329-358 | the test on the joined paragraph is that on its lines |
| WrapGroups.JoinedIs | filters/wrap.c:360-384 | a paragraph has quotes, indent and marker of its first line, the flowed mark of its last, the running mean of the ratios, and the texts with one space between them |
| WrapFilter.ParagraphsKeepWords | filters/wrap.c:574-590 | parsing and joining lose no visible character, change none of their quote prefixes, and break and join no words |
| WrapFilter.RewrapConserves | filters/wrap.c:574-595 | for all lines, margin, ratio and reflow flag: the sequence of visible body characters, each with its quote prefix and with whether it goes on the word of the one before it, is at any time a prefix of what was read, and all of it once the program ends |
| WrapFilter.JoinedParagraphsAreProse | filters/wrap.c:329-384 | the paragraphs are the parsed lines taken together in order: each is its group of lines joined one after the other, and one that is joined from several lines has at least the prose ratio |
| WrapFilter.JoinedParagraphsKeepMargin | filters/wrap.c:329-480 | so every line written for a paragraph joined from several lines keeps the margin |
| WrapFilter.RewrapEndsIffEachEnds | filters/wrap.c:574-595 | the program ends if and only if the writing of every paragraph does |
| ThreadNodes.Walk | worker/types/thread.go:62-153 | following first-child and next-sibling links yields the nodes in depth-first order |
| ThreadNodes.Iterator.Next | lib/iterator/impl.go:29-114 | hands out one value more, and tells whether there is one |
| ThreadNodes.Iterator.Value | lib/iterator/impl.go:34-118 | the values come in display order for both factories |
| ThreadList.ThreadBuilder.RebuildUids | lib/threadbuilder.go:210-245 | the flat list, handed out by the factory's iterator, is the listing of the forest; every node carries the marks stored for its uid, or its own when it is new |
| ThreadList.ListingIs | lib/threadbuilder.go:210-245 | for both factories and both thread directions a listing has every message that is neither hidden nor deleted, once, and nothing else |
| ThreadOrder.ThreadListingOrder | lib/threadbuilder.go:210-245 | of two messages of one thread, both listed, the one that comes first in the thread is listed first if and only if the thread direction is not inverse |
| ThreadOrder.ListingOrder | lib/threadbuilder.go:210-245 | all listed messages of a thread come before those of a later one with the reverse factory, and after them with the default one |
| ThreadOrder.ThreadIsInOrder | worker/types/thread.go:62-153 | in a thread a message comes before all that is below it, and a reply with all below it before the next reply |
| ThreadList.ThreadBuilder.RebuiltIsFound | lib/threadbuilder.go:35-44 | after a forest has been listed, a uid is found if and only if it is in the forest or was known before: at its new node with the marks stored for it, else at its old node, unchanged |
| ThreadFolding.CountedMeans | lib/msgstore.go:620-646 | counters represent a set of folded messages when each is the number of the message's proper ancestors in the set |
| ThreadFolding.ApplyKeeps | lib/msgstore.go:612-646 | folding adds the message; unfolding removes it or else the outermost folded messages below it; toggling does one or the other |
| ThreadFolding.ApplyBreaks | lib/msgstore.go:624-646 | an operation that counts down below a hidden message that is not folded leaves counters that come from no set of folded messages |
| ThreadFolding.RepresentedIffSafe | lib/msgstore.go:612-646 | after any operation the counters are those of a set of folded messages if and only if it was not of that kind |
| ThreadFolding.HiddenToggleBreaks | lib/msgstore.go:620-637 | a concrete forest and a hidden message whose toggling breaks the counters |
| ThreadFolding.RunKeepsCounters | lib/msgstore.go:604-658 | over every run of fold, unfold and toggle on displayed messages each counter is the number of folded proper ancestors |
| ThreadFolding.ToggleTwice | lib/msgstore.go:612-646 | toggling a displayed message twice restores every counter |
| ThreadFolding.FoldHidesUnfoldShows | lib/msgstore.go:612-646 | folding a displayed message hides all that is below it, unfolding it shows its replies, and neither touches another message |
| ThreadCarry.CarriedIff | lib/threadbuilder.go:210-245 | when a forest gains messages, the counters it takes over mean a set of folded messages if and only if no new message has a folded one above it |
| ThreadCarry.GainIff | lib/threadbuilder.go:210-245 | so it is for any counters that keep those of known messages and start from zero for new ones |
| ThreadCarry.NewReplyBreaks | lib/threadbuilder.go:210-245 | a concrete forest and reply on which the representation is lost |
| ThreadStore.Store.DoThreadFolding | lib/msgstore.go:612-658 | on linked nodes the counters change as the operation on counters says and no other mark does; the message is selected and the list rebuilt from the counters if and only if the operation goes through |
| MessageCursor.MoveIsDown | lib/iterator/index.go:42-54 | in both list orders moving by delta moves down the display by delta rows, and stops at its ends |
| MessageCursor.MessageList.FindIndexByUid | lib/msgstore.go:1075-1082 | the index of a uid, or -1 exactly when it is not listed |
| MessageCursor.MessageList.NextPrev | lib/msgstore.go:881-900 | the cursor moves by delta rows within the display; from outside of the list it goes to the top; with no message selected it starts at the end that `selectLast` names |
| MessageCursor.MessageList.FindNextNonDeleted | commands/msg/delete.go:153-180 | ends, for any pointers and marks; selects and returns what the two-way search over the display finds |
| MessageCursor.SearchIsNearest | commands/msg/delete.go:153-180 | when all is loaded: the nearest message that stays at or below the cursor, else the nearest above; none if and only if none stays |
| MessageCursor.SearchFindsIff | commands/msg/delete.go:160-175 | whatever is loaded: it succeeds if and only if a message that stays comes before one that is not loaded |
| ResultCursor.StepIsNeighbour | lib/iterator/index.go:23-54 | a step by one through the results goes to the neighbouring row, around the ends, in both list orders |
| ResultCursor.ResultList.NextPrevResult | lib/msgstore.go:983-1000 | the index never leaves the results, even when they have become fewer since; the row it names is selected |
| ResultCursor.ResultList.ApplySearch | lib/msgstore.go:945-949 | a new search selects the top result of the display |
| ResultCursor.ResultList.UpdateResults | lib/msgstore.go:970-981 | a cursor that has moved to a result by itself is where stepping goes on |
| BodyFetching.RunIsSound | lib/msgstore.go:193-225 | over every run of fetches, errors and arrivals: callbacks wait only for pending messages; a message is pending when it was requested once more than settled; each registered callback waits, was called, or was dropped |
| BodyFetching.FiresAtMostOnce | lib/msgstore.go:392-401 | each registered callback is called at most once, and never after it was dropped |
| BodyFetching.ToFetchIs | lib/msgstore.go:198-211 | a call asks for exactly the uids of its list that are not pending, each once |
| BodyFetching.FetchRegisters | lib/msgstore.go:200-210 | it registers its callback for just those: given for a pending message, a callback is never kept |
| BodyFetching.FetchedAreRequested | lib/msgstore.go:198-224 | what it asks for is what becomes pending and requested |
| BodyFetching.BodyStore.FetchFull | lib/msgstore.go:193-225 | the maps change as the step says, and the uids posted are those to fetch |
| BodyFetching.BodyStore.FetchFailed | lib/msgstore.go:216-223 | an error reply clears the uids of its request, callbacks included |
| BodyFetching.BodyStore.FullMessage | lib/msgstore.go:392-401 | an arrival calls the callbacks that wait, in order of registration |
| MailList.RunIsSound | lib/msgstore.go:274-447 | over every run of worker messages the list of uids has no duplicates and only known messages |
| MailList.InsertedMovesNone | lib/msgstore.go:830-836 | inserting a uid moves no other |
| MailList.NoPlaceAppends | lib/msgstore.go:830-836 | it goes to the end if and only if there is no index inside of the list |
| MailList.IndexIsPlaceIffNotHead | lib/msgstore.go:828-836 | the uid gets the place of its index if and only if that is not the head of a list that is not empty |
| MailList.UnsolicitedIsListed | lib/msgstore.go:347-371 | an unsolicited message is listed afterwards if and only if it was listed or was not loaded; no other message comes or goes |
| MailList.LoadedIsUpdated | lib/msgstore.go:346-353 | field by field what a loaded message holds after news of it: what is present is taken over, labels and error always, flags are replaced or united; nothing else changes |
| MailList.UnloadedIsStored | lib/msgstore.go:354-371 | news of a message that is not loaded are stored as they are if and only if they have an envelope or an error or were not asked for |
| MailList.FlagsAfterRun | lib/msgstore.go:349-353 | over every run of news a loaded message has exactly the flags it had or was sent that no later news of it replaced |
| MailList.NewListKeepsLoaded | lib/msgstore.go:292-341 | a new list takes the place of the old one; what is loaded of its messages is kept, and nothing of others |
| MailList.DeletedAreGone | lib/msgstore.go:402-435 | deleted messages leave the list, the results, the map and the marks, and no others do; nothing happens when more are reported than are listed |
| MailList.NewUidsAreOnScreen | lib/msgstore.go:264-305 | headers are wanted for exactly the unknown messages that the display shows between the first and the last row |
| MailStore.MessageStore.FetchHeaders | lib/msgstore.go:163-181 | asks for the uids that are not pending, once each, and marks them |
| MailStore.MessageStore.HeadersAnswered | lib/msgstore.go:179-185 | the uids of an answered request are no longer pending |
| MailStore.MessageStore.DirectoryContents | lib/msgstore.go:288-311 | takes over the list, keeps what is loaded, and asks for the headers on screen |
| MailStore.MessageStore.DirectoryThreaded | lib/msgstore.go:312-341 | the list becomes the listing of the new forest with the old marks, and the headers on screen are asked for |
| MailStore.MessageStore.MessageInfo | lib/msgstore.go:342-386 | merges into a loaded message, or stores and lists a new one; the selection callback is called exactly when the selected message is first loaded; the update changes no mark and no list of threads that was right |
| MailStore.MessageStore.MessagesDeleted | lib/msgstore.go:402-450 | drops the messages from the list, the results, the map and the marks, unselects when none is left, and marks exactly their threads; the list of threads, when the store keeps it, is the one before without the deleted messages |
| ThreadPane.ListingWithout | lib/threadbuilder.go:210-245 | for every forest, both factories and both thread directions: the listing after a deletion is the listing before it without the deleted messages |
| ThreadPane.ThreadPane.DeleteAndRefresh | lib/msgstore.go:435-497 | marking the threads and rebuilding the list from them takes exactly the deleted messages out of it, in place, and changes no other mark |
| ThreadPane.ThreadPane.ListAgain | lib/msgstore.go:476-497 | rebuilding a list that is right leaves it as it is, with every mark |
| KeyBinds.GetBinding | config/binds.go:427-456 | finds the first binding of the input, else tells whether some binding goes on from it |
| KeyBinds.CleanedIs | config/binds.go:331-362 | cleaning leaves one binding per input, none empty, and what each input means |
| KeyBinds.FilterAndClean | config/binds.go:334-362 | the two loops compute that |
| KeyLayers.MergeBindings | config/binds.go:364-383 | the loops over the layers compute the merge |
| KeyLayers.MergeKeepsMeaning | config/binds.go:364-383 | for every key sequence lookup in a merge is what the layers prescribe; inputs are unique; the special keys are those of the top layer |
| KeyLayers.DecideIs | config/binds.go:364-383 | what layers prescribe: the output of the first binding of the input in the highest layer that has one, if it is not empty and no layer above does without the global bindings |
| KeyLayers.MergeOnTop | config/binds.go:364-383 | merging on top of a merge means the same as merging all layers at once |
| KeyLayers.AssociativeIff | config/binds.go:364-383 | merging is associative on lookups if and only if no input is erased, or cut off, above a layer that binds it |
| KeyLayers.ErasureIsForgotten | config/binds.go:350-361 | a concrete input on which the two ways of nesting a merge give two different lookups |
| KeyContexts.MergeKeepsCounts | config/binds.go:376-381 | the counters stay the number of contextual sections of each type |
| KeyContexts.LoadingKeepsCounts | config/binds.go:300-301 | so does loading a section |
| KeyContexts.KeyBindings.Contextual | config/binds.go:385-412 | the shortcut and the cache give what folding the sections afresh gives, and keep every cache right |
| KeyContexts.KeyBindings.For | config/binds.go:414-420 | after any earlier lookups the bindings for a folder of an account are the sections for the folder over those for the account over the base |
| KeyContexts.ContextMeaning | config/binds.go:385-420 | and lookup in them is what these layers prescribe |
| KeyContexts.ContextLayersOfOne | config/binds.go:398-406 | a section applies if and only if it has the type and its expression matches, and then comes on top |
| KeyContexts.ContextLayersConcat | config/binds.go:398-406 | sections apply one after the other |
| KeyStrokes.ParseKeyStrokes | config/binds.go:642-719 | the loop over the buffer reads what the grammar of strokes says, errors included |
| KeyNames.NamesInAnySpelling | config/binds.go:655-701 | every name of the table in any spelling, after any modifier letters in either case, is read as its stroke with these modifiers |
| KeyNames.NameInAnySpelling | config/binds.go:655-686 | without modifiers that is the stroke of the name |
| KeyNames.CharactersAreKeys | config/binds.go:676-686 | a single character is a key as it is written |
| KeyNames.OtherNamesAreUnknown | config/binds.go:676-682 | any other name is an error |
| KeyNames.OtherModifiersAreUnknown | config/binds.go:687-700 | any other modifier is an error |
| KeyLists.FormatKeyStrokes | config/binds.go:479-541 | whatever names the loop over the table stops at, the text is one of the formats of the strokes; it is read back if and only if all are printable, but for a backslash that may come last |
| KeyLists.ReadsBackIff | config/binds.go:479-719 | for every list of strokes and each of its formats: parsing gives the list if and only if every stroke is printable, but for a backslash that may come last |
| KeyLists.ReadingGainsNothing | config/binds.go:642-719 | whatever the texts of a list of strokes are read as never outweighs the list, an escaped text of a backslash with modifiers counting for all its characters |
| KeyStrings.OneStrokeIff | config/binds.go:479-719 | for one stroke the text reads back if and only if it is printable or a lone backslash |
| KeyStrings.ReadModsAreKnown | config/binds.go:642-719 | parsing never yields a modifier other than shift, alt and ctrl for a bracketed key |
| ColorizeText.Terminal.PrintNoTabs | filters/colorize.c:453-492 | prints each character once from the current column, tabs as spaces up to the tab stop |
| ColorizeText.TabStopIs | filters/colorize.c:453-492 | a tab goes to the next column that is a multiple of the tab width |
| ColorizeText.DrawShowsExpansion | filters/colorize.c:453-492 | however a text is cut into segments, what is visible is its one-pass tab expansion |
| ColorizeSpans.FirstSpanIsDelimited | filters/colorize.c:609-640 | a code span lies between two backtick runs of the same length, the first backtick opens it, and no run of that length comes before the closing one |
| ColorizeSpans.PrintInlineCode | filters/colorize.c:604-657 | draws the text with its code spans; the caller's style is in force again |
| ColorizeSpans.CodeSegsText | filters/colorize.c:609-654 | cutting out code spans loses and repeats nothing |
| ColorizeLooks.CodeSpanLooks | filters/colorize.c:604-657 | text before a code span is in the caller's look, the span in the code style on top of it, and so on after it |
| ColorizeLooks.PlainTextLooks | filters/colorize.c:647-654 | without a code span all text is in the caller's look |
| ColorizeUrls.FindUrlEnd | filters/colorize.c:695-742 | the scan with three counters finds the end of a URL |
| ColorizeUrls.UrlEndIs | filters/colorize.c:695-742 | a URL is the longest run of URL characters that closes no bracket it has not opened, less trailing punctuation |
| ColorizeUrls.UrlSegsText | filters/colorize.c:675-766 | cutting out URLs loses and repeats nothing |
| ColorizeLooks.LinkLooks | filters/colorize.c:675-766 | text before a match is shown with its code spans, the link in the URL style on top of the caller's look, a scheme alone in the caller's look, and so on after it |
| ColorizeLooks.NoLinkLooks | filters/colorize.c:766-766 | without a match text is shown with its code spans |
| ColorizeUrls.Urls | filters/colorize.c:675-766 | ends, draws the text with its URLs and spans; the caller's style is in force again |
| ColorizeFilter.DiffChunkLine | filters/colorize.c:509-524 | draws the hunk marker and the function name in their styles, and resets |
| ColorizeLooks.HunkLooks | filters/colorize.c:509-524 | the marker of a hunk, from its first '@' to the end of its second run of '@', is in one style and the rest in another |
| ColorizeFilter.DiffStat | filters/colorize.c:526-581 | draws the parts of a diffstat line in their styles, and resets |
| ColorizeStats.StatLooks | filters/colorize.c:526-581 | up to the first bar and over the count after it a diffstat is plain; then each '+' and '-' is in its style up to the first other character |
| ColorizeStats.BinStatLooks | filters/colorize.c:536-563 | of a binary file the old size is in the style of deletions and the new one, after its arrow, in that of additions |
| ColorizeStats.NoPipeLooks | filters/colorize.c:526-532 | without a bar all of it is plain |
| ColorizeFilter.DiffLine | filters/colorize.c:583-602 | draws trailing blanks apart, the first character excepted |
| ColorizeLooks.DiffLooks | filters/colorize.c:583-602 | in a diff, lines that start with '+' and '-' are in their styles and other lines in none, but for the blanks at their end, the first character excepted |
| ColorizeFilter.SignatureLine | filters/colorize.c:768-773 | draws a signature line and resets |
| ColorizeLooks.SignatureLooks | filters/colorize.c:768-773 | from its delimiter on a signature is running text in its style |
| ColorizeFilter.HeaderLine | filters/colorize.c:778-788 | draws a header name and the text after it |
| ColorizeLooks.HeaderLooks | filters/colorize.c:778-788 | the name matched is in the header style, what follows is running text |
| ColorizeFilter.Quote | filters/colorize.c:801-848 | draws the quote prefix in the style of its level, and quoted diffs in theirs |
| ColorizeLooks.QuoteLooks | filters/colorize.c:801-848 | the longest prefix of '>' with one space at most after each is in the style of the number of its '>'; what follows is bold, a diff line, or running text in that style |
| ColorizeLines.LineStepText | filters/colorize.c:862-929 | in every state and for all answers of the regular expressions a line is drawn from all its characters in order |
| ColorizeStates.InCodeIff | filters/colorize.c:868-909 | over every run: in a code block if and only if some line outside has opened one and no closing line has come since |
| ColorizeStates.InDiffIff | filters/colorize.c:874-914 | in a diff if and only if some line outside has opened one and all since go on with it |
| ColorizeStates.InSignatureIff | filters/colorize.c:874-918 | in a signature if and only if some line outside of code has been a signature delimiter: for good |
| ColorizeLooks.CodeLineLooks | filters/colorize.c:868-907 | lines of a code block are all in the code style, fences included |
| ColorizeLooks.DiffHeadLooks | filters/colorize.c:878-914 | the head of a diff is in its style, a line of three dashes in none |
| ColorizeLooks.OtherLooks | filters/colorize.c:886-928 | all other lines are running text |
| ColorizeFilter.Colorizer.ColorizeLine | filters/colorize.c:862-929 | takes the step of the line machine; each character is shown as its tab expansion in its look; no attribute stays on |
| ColorizeFilter.Colorizer.PrintLine | filters/colorize.c:1011-1017 | one line of output per buffer, from column 0 and back; no attribute stays on after it |
| ColorizeFilter.Colorizer.Run | filters/colorize.c:1011-1017 | over every run the screen shows each line from column 0, in the looks that its state gives it, and the state is that after all lines; the visible text is the tab expansion; the reset state is reached at the end |
| DirPaths.CutIs | app/dirtree.go:526-527 | what cutting at the separator means |
| DirPaths.LessIs | app/dirtree.go:540-544 | names are ordered by the first character in which they differ, or by length |
| DirBuild.Group | app/dirtree.go:524-538 | the first loop files under each first component what follows it in the folders |
| DirBuild.Bases | app/dirtree.go:539-544 | the second loop lists the first components in ascending order, each once |
| DirBuild.BuildTreeNode | app/dirtree.go:523-562 | ends, for any folders, since the longest path gets shorter; makes the node that the specification describes |
| DirBuild.BuildTree | app/dirtree.go:472-521 | makes the trees below the root, puts them in the order of the setting, and lists their nodes in depth-first order, parents first |
| DirTree.TreePaths | app/dirtree.go:546-561 | below every node: a path is in the tree if and only if it is a folder or above one |
| DirTree.PrefixesIffRooted | app/dirtree.go:523-569 | the tree has exactly the folders and the paths above them if and only if no folder is empty or starts with the separator |
| DirTree.ParentsComeFirst | app/dirtree.go:510-520 | the list of nodes has each path once, and parents before everything below them |
| DirTree.NodesAreSettled | app/dirtree.go:546-559 | every folder is listed; a node is a dummy if and only if no folder has its path; siblings ascend; a node starts collapsed if and only if the setting for its path is not 0 and not above its number of components |
| DirTree.OrderIsUnique | app/dirtree.go:540-544 | there is only one ascending list of a set of names |
| FolderSort.CompareIs | app/dirtree.go:491-507 | the comparison puts folders of earlier patterns first, then those of no pattern, each group by name, and calls only equal paths equal |
| FolderSort.FoldersCompare | app/dirtree.go:491-507 | a folder comes before one that a later pattern is the first to match, and before one that none matches; else names decide |
| FolderSort.PrecedesIsOrder | app/dirlist.go:483-508 | for all patterns that is a strict total order |
| FolderSort.SortOrderIsUnique | app/dirtree.go:488-508 | so there is one sorted top level |
| FolderSort.SortingKeepsNodes | app/dirtree.go:488-521 | sorting the top level keeps every node, path, dummy mark and fold of the tree |
| FolderSort.SortingKeepsParentsFirst | app/dirtree.go:488-521 | in whatever order the top level comes, the list of nodes has each path once and parents before everything below them |
| DirCursor.IsVisible | app/dirtree.go:580-587 | visible if and only if no ancestor is collapsed |
| DirCursor.MakeVisible | app/dirtree.go:571-578 | expands the ancestors, changes no other node, and makes the node visible |
| DirCursor.DirectoryTree.NextPrevDelta | app/dirtree.go:263-293 | ends for every way nodes are hidden, and lands on the visible node of the target rank |
| DirCursor.TargetFromVisible | app/dirtree.go:277-290 | the target rank from a visible node is its own plus delta, modulo the number of visible nodes |
| DirCursor.RankIsUnique | app/dirtree.go:295-303 | a visible node is determined by its rank |
| DirCursor.ThereAndBack | app/dirtree.go:263-293 | from a visible node, moving by delta and then by -delta returns to it |
| MimeParts.PartPathsAreAll | lib/structure_helpers.go:49-64 | the enumeration has every path through multiparts to such a part, and nothing else |
| MimeParts.PartPathsInOrder | lib/structure_helpers.go:50-62 | in depth-first order, hence without repeats |
| MimeParts.PartPathsResolve | models/models.go:202-232 | each path is listed once and resolves through PartAtIndex to the part at that path, which is of the kind sought |
| MimeParts.ResolvesIff | models/models.go:202-232 | a path resolves if and only if it leads to a part, or goes on from a part without parts by one position 1 |
| MimeParts.FindAllNonMultipart | lib/structure_helpers.go:49-64 | on slices that share arrays: the list holds exactly those paths when all is done, none overwritten |
| MimeParts.FindFirstNonMultipart | lib/structure_helpers.go:34-47 | the head of that list, or nothing when it is empty |
| MimeParts.FindMIMEPart | lib/structure_helpers.go:11-24 | the first part of a MIME type in that order |
| MimeParts.MimeTypeIs | models/models.go:234-237 | the type compared is the lowered type, a slash, and the lowered subtype |
| MimeParts.BuildContentIDMap | lib/inlineimages.go:167-196 | the recursion builds the specified map |
| MimeParts.TrimAnglesIs | lib/inlineimages.go:180-184 | trimming leaves the part between the first and the last character that is no angle bracket |
| MimeParts.IdMapDescribes | lib/inlineimages.go:180-193 | the map has an entry for exactly the trimmed Content-IDs in the tree, each for the last part that has it |
| MimeParts.IdMapResolves | lib/inlineimages.go:180-193 | every entry resolves to a part with that trimmed Content-ID and the MIME type of the entry |

## Left out

- WrapWriter.WriteParagraph: takes a number of turns, because the loop need not end; `EndsIffNotJammed` says when it
  does.
- WrapProperties.MarginBound: widths that overflow `size_t` and text with unprintable characters are excluded; the
  second is what `MarginIsKeptIff` is about.
- WrapProperties.MarginIsKeptIff: a quote prefix wider than the margin by itself, which no wrapping can mend; widths
  that overflow `size_t`.
- WrapMarkers.ListItemIs: locales in which the punctuation of markers is a letter or a digit.
- WrapProperties.EndsIffNotJammed: printable text only, as the width of other text is counted wrongly by the code.
- WrapFilter.JoinedParagraphsKeepMargin: has the two exclusions of the margin bound.
- WrapFilter.Rewrap: the pass-through of patches, the choice of locale, and lines longer than the buffers.
- ColorizeText.Terminal.PrintNoTabs: counts characters where the code counts bytes, so a piece never ends inside of a
  multi-byte character; the handling of invalid sequences is that of any character of width 1.
- ColorizeUrls.Urls: OSC 8 output, which counts the hidden URL into the column, is off.
- ColorizeFilter.Colorizer.Run: the parsing of the style set and of the arguments.
- KeyStrokes.ParseKeyStrokes: the codes of special keys are those of the vaxis library, which is not part of this
  model; the table of names is a parameter with the properties that the code's table has.
- KeyNames.CharactersAreKeys: the dash as a key, which `ReadsBackIff` covers as it is printed.
- KeyContexts.KeyBindings.For: bindings are not added once they have been looked up in a context, as in the program.
- KeyContexts.ContextMeaning: contextual sections have no sections of their own, as the section names allow none.
- ThreadNodes.Walk: the links of a node are fixed once it is built, so inserting children and the JWZ threading
  algorithm are not part of this model.
- ThreadStore.Store.DoThreadFolding: folding a message that has left the folder but is still known to the builder;
  such a message is not displayed.
- ThreadCarry.CarriedIff: new messages that become parents of known ones, and known messages that leave or move; a
  message that is folded has replies, as folding demands.
- MessageCursor.MessageList.NextPrev: the callback that restores the cursor after the client has built threads, and
  marks.
- ResultCursor.StepIsNeighbour: steps of more than one, for which `WrapBounds` does not count modulo the number of
  rows.
- ResultCursor.ResultList.UpdateResults: a message is selected already when it is called.
- BodyFetching.FiresAtMostOnce: callbacks that fetch again while they are called; that a callback is called at all.
- MailList.FlagsAfterRun: runs of news of messages, without new lists or deletions among them.
- MailList.RunIsSound: lists that the server sends are assumed not to repeat a message.
- MailStore.MessageStore.DirectoryContents: building threads on the client, which changes neither the list nor the
  map.
- MailStore.MessageStore.MessageInfo: the timer that fetches flags, and triggers.
- MailStore.MessageStore.MessagesDeleted: with client-side threads the update runs the threader instead, which is not
  part of this model; marks are set all the same.
- ThreadPane.ThreadPane.ListAgain: the threads are not changed by others between two messages of the worker.
- DirBuild.BuildTree: nodes are values, so parent and sibling links are not captured; fold marks kept from the tree
  before, for which the code records another path than that of the node.
- DirPaths.CutIs: a separator of one character, as all back ends have.
- FolderSort.CompareIs: which patterns `filepath.Match` finds well formed and matching is a parameter.
- MimeParts.MimeTypeIs: lowering works on a text piece by piece, and the MIME type itself has no slash.
- DirCursor.DirectoryTree.NextPrevDelta: opening the directory that is selected.
- MimeParts.BuildContentIDMap: the nil part, for which the map is empty.
- Terminal drawing, tabs, dialogs, compose windows, pagers, hooks, IPC, autoconfig, cryptography, OAuth, and the back
  ends (IMAP, JMAP, maildir, mbox, notmuch): input, output and foreign libraries.
- Locking, timers, command history, scrolling, argument parsing and reflection on the configuration.
- `reorder` in `commands/patch/rebase.go`: its comparator reads a slice that the sort does not permute, so no order
  follows.
