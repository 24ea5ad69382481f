# A Dafny model of the Japanese-study tools' core

This project models the parts of the repository that do real work on data
and proves what they promise:

- **EDICT2 dictionary loader and lookup** (`src/TextProcessor.cpp`).
  `loadDictionary` makes one pass over the raw dictionary buffer with a
  five-state machine (`VersionNumber`, `JapaneseWord`, `Reading`,
  `EnglishDefinition`, `EntryId`). It gathers each surface form and each
  reading in a 1024-byte buffer and inserts it, through
  `finishAddWordToDictionary`, into a hash map from key to the start of its
  line. `getDictionaryResults` looks a key up and copies the entry's line
  into the caller's buffer.
  - `EDict2` (edict2_spec.dfy) states the machine as pure functions:
    `Step` handles one character, `Steps` handles a range, and `Load` handles
    the whole buffer. It also gives the bounded copy `EntryText`.
  - `EDict2Dictionary` (edict2_dictionary.dfy) is the imperative version: a
    `Dictionary` class holding the map and the raw buffer. Its loader loop
    really writes a 1024-element array, and its lookup loop fills the
    caller's array. Both loops are proved equal to the functions.
  - `EDict2Properties` proves what every load guarantees: which keys can
    appear, where they point, and that the last occurrence of a key wins.
  - `EDict2Lines` proves that any file of well-formed lines
    `words [readings] /gloss/EntLid` loads into the map of its forms and
    readings, that a lookup copies the entry's line, and checks a
    two-entry example.
- **CJK title filter** of the Wallabag calibre recipe
  (`src/Calibre_Wallabag_NewsSource.py`), module `CjkFilter`. It covers the
  `cjkRanges` table, `is_cjk`, and `parse_feeds`, which removes in place
  every article whose title has no CJK character.
- **Subtitle-to-Org conversion** of `src/VideoToEPUB.py`, module `VttToOrg`.
  It models the loop over the WebVTT lines, which builds the outline lines
  and asks ffmpeg for one screenshot per cue.
- **AnkiConnect helpers** of `AnkiInterface.py`, module `AnkiConnect`. These
  are `sanitizeTextForConversion`, `formatAnkiConnectRequest`, and the checks
  that `invokeAnkiConnect` makes on a response.
- **Quiz-word choice** `getCardQuizWord` of `src/Main.cpp`, module
  `QuizWord`.

`Wrappers` (wrappers.dfy) holds the `Option` and `Result` types.

Pointers into the raw dictionary buffer are modelled as offsets (`nat`).
Where the C++ asserts or writes out of bounds, the model returns an error
value instead (`MalformedLine`, `WordTooLong`).

A key maps to the offset of the first character of its line, where
`beginningOfLine` is set. When a line starts with spaces, that offset comes
before the first surface form.

## Model

| member | source | states |
|---|---|---|
| EDict2.CString | src/TextProcessor.cpp:30-33 | the key built from the copied word is the word up to its first NUL; it holds no NUL |
| EDict2.CStringStopsAt | src/TextProcessor.cpp:33 | a word whose first NUL is at k gives exactly its first k characters |
| EDict2.LineStart | src/TextProcessor.cpp:94-107 | the line start is the offset just after the last newline before i, and no newline lies between it and i |
| EDict2.FinishAddWord | src/TextProcessor.cpp:79-84 | FINISH_ADD_WORD clears the pending word and keeps the state and line start; an empty pending word inserts nothing |
| EDict2.FinishAddWordIndex | src/TextProcessor.cpp:34-41 | the pending word's key maps to the line start (overwriting a duplicate), every other key is kept, and no other key is added |
| EDict2.IsEntryIdMarker | src/TextProcessor.cpp:157-159 | the marker test holds exactly when the five characters from offset i are `/EntL`, all inside the buffer |
| EDict2.IsSeparator | src/TextProcessor.cpp:109-144 | the characters that end a pending word: `/`, `[` and `;` in JapaneseWord, `]` and `;` in Reading, none in any other state |
| EDict2.Accumulate | src/TextProcessor.cpp:128-132 | a character is appended to the pending word exactly when the 1024-character buffer has room, otherwise the load stops with WordTooLong at that offset |
| EDict2.Step | src/TextProcessor.cpp:86-166 | one character of the loop; a successful step keeps the loader consistent, and an error names the offset of that character |
| EDict2.Steps | src/TextProcessor.cpp:86-167 | the loop over a range of offsets; an error names an offset inside the range |
| EDict2.Load | src/TextProcessor.cpp:49-172 | the whole loop over the buffer from the initial state; a failed load names an offset inside the buffer, and a successful one leaves the loader consistent |
| EDict2.ErrorSticks | src/TextProcessor.cpp:86-97 | once a load fails at some offset, running further does not change the result |
| EDict2.EntryText | src/TextProcessor.cpp:199-204 | the copy made by a lookup is never longer than the caller's limit |
| EDict2.EntryTextIsLinePrefix | src/TextProcessor.cpp:198-205 | the copy is a slice of the buffer from the entry's start, has a newline only as its last character, and stops early only at a newline or the buffer's end |
| EDict2Dictionary.Dictionary.constructor | src/TextProcessor.cpp:21-23 | the dictionary starts empty with no raw buffer |
| EDict2Dictionary.Dictionary.FinishAddWordToDictionary | src/TextProcessor.cpp:25-47 | the map becomes the old map with the C-string key of the word set to the entry, and the key is present afterwards |
| EDict2Dictionary.Dictionary.LoadDictionary | src/TextProcessor.cpp:49-172 | the loop with its read state, 1024-element buffer and line start produces exactly Load's dictionary on success and Load's error otherwise |
| EDict2Dictionary.Dictionary.GetDictionaryResults | src/TextProcessor.cpp:191-206 | reports a hit exactly when the key is in the map; on a miss the output buffer is untouched; on a hit it holds EntryText of the entry and nothing past it is changed |
| EDict2Properties.StepKeepsInvariant | src/TextProcessor.cpp:86-166 | every character keeps the load invariant: keys are space- and NUL-free, fit the buffer, and map to the start of an earlier line after the first |
| EDict2Properties.LoadKeepsInvariant | src/TextProcessor.cpp:72-167 | the invariant holds after every prefix that loads without error |
| EDict2Properties.FirstLineIgnored | src/TextProcessor.cpp:72-104 | before the first newline the loader stays in its initial state, so nothing on the version line becomes a key |
| EDict2Properties.LoadedKeys | src/TextProcessor.cpp:94-148 | after a successful load every key is free of spaces and NUL, fits 1024 characters, is non-empty when the buffer holds no NUL, and maps to the start of a line after the first |
| EDict2Properties.EveryEntryLineHasMarker | src/TextProcessor.cpp:88-160 | in a successful load every newline after the version line follows an `/EntL` marker on its own line |
| EDict2Properties.NewlineLegality | src/TextProcessor.cpp:88-96 | a newline is accepted exactly in VersionNumber and EntryId and fails with MalformedLine otherwise; it resets the line start and returns to JapaneseWord |
| EDict2Properties.GlossAbsorbs | src/TextProcessor.cpp:155-161 | in the gloss only an in-bounds `/EntL` moves the loader to EntryId; every other character, any other `/` included, changes nothing |
| EDict2Properties.LastCommit | src/TextProcessor.cpp:34-41 | the last offset before n that commits key k; no later offset commits k |
| EDict2Properties.StepIndex | src/TextProcessor.cpp:79-144 | a step changes the map only by committing the pending word's key at the current line's start, and only at a separator with a non-empty pending word |
| EDict2Properties.LastCommitWins | src/TextProcessor.cpp:34-41 | a key is in the map exactly when some character committed it, and it maps to the line start of its last commit |
| EDict2Lines.JoinRun | src/TextProcessor.cpp:119-144 | in a `;`-separated list of words, every word but the last is inserted with the line start and the last is left pending |
| EDict2Lines.ReadingsRun | src/TextProcessor.cpp:114-144 | ` [r1;r2…]` after a surface form inserts that form and every reading, and `]` returns to JapaneseWord |
| EDict2Lines.HeadRun | src/TextProcessor.cpp:105-154 | the surface forms, the optional readings and ` /` insert every form and reading with the offset of the line's first character, then enter the gloss |
| EDict2Lines.TailRun | src/TextProcessor.cpp:88-163 | the gloss, the `/EntL` marker, the entry ID and the newline leave the map unchanged and start a new line |
| EDict2Lines.EntryRun | src/TextProcessor.cpp:86-167 | a well-formed entry line inserts its surface forms, then its readings, all mapped to the line's start |
| EDict2Lines.LinesRun | src/TextProcessor.cpp:86-167 | a run of well-formed lines produces Loaded: each entry's keys mapped to its own line's offset, later lines overwriting earlier ones |
| EDict2Lines.LoadWellFormed | src/TextProcessor.cpp:49-172 | a version line followed by well-formed entry lines loads without error into Loaded |
| EDict2Lines.InsertAllFacts | src/TextProcessor.cpp:34-41 | inserting a list of keys adds exactly them, maps each to the value, and keeps every other key |
| EDict2Lines.LoadedKeys | src/TextProcessor.cpp:34-41 | every key of Loaded comes from an entry and maps to that entry's line; every form and reading of every entry is a key |
| EDict2Lines.CopyAtEntry | src/TextProcessor.cpp:199-204 | copying from an entry's line offset gives that line with its newline, cut to the limit |
| EDict2Lines.LookupWellFormed | src/TextProcessor.cpp:191-206 | after loading well-formed lines, a key is found exactly when it is a form or reading of some entry, and the copy is that entry's line cut to the limit |
| EDict2Lines.ExampleLoads | src/TextProcessor.cpp:49-172 | loading the example succeeds and maps 犬, いぬ and けん to offset 12 and 猫 and ねこ to offset 41 |
| EDict2Lines.ExampleLookupFirst | src/TextProcessor.cpp:191-206 | looking up a key of the first example entry copies its whole line, newline included |
| EDict2Lines.ExampleLookupSecond | src/TextProcessor.cpp:191-206 | the same for the second example entry at offset 41 |
| CjkFilter.BuildCjkRanges | src/Calibre_Wallabag_NewsSource.py:36-58 | the table is every non-kana range of `cjkNonKanaRanges` in order, then `hiraganaRange`, then `katakanaRange`, with the bounds the source writes |
| CjkFilter.AnyRangeContains | src/Calibre_Wallabag_NewsSource.py:68 | `any` over the table holds exactly when some range contains the code point |
| CjkFilter.IsCjk | src/Calibre_Wallabag_NewsSource.py:67-68 | a character is CJK exactly when its code point lies inclusively in one of the ranges of cjkRanges |
| CjkFilter.KanaIsCjk | src/Calibre_Wallabag_NewsSource.py:36-58 | every hiragana and katakana character is CJK |
| CjkFilter.UnifiedIdeographIsCjk | src/Calibre_Wallabag_NewsSource.py:46 | every character of U+4E00–U+9FFF is CJK |
| CjkFilter.BelowRadicalsNotCjk | src/Calibre_Wallabag_NewsSource.py:40-58 | no character below U+2E80 is CJK |
| CjkFilter.AsciiLetterNotCjk | src/Calibre_Wallabag_NewsSource.py:40-58 | no ASCII character from `A` to `z` is CJK |
| CjkFilter.FindJapanese | src/Calibre_Wallabag_NewsSource.py:23-28 | the flag is set exactly when the title has a CJK character |
| CjkFilter.HasCjkTitle | src/Calibre_Wallabag_NewsSource.py:23-28 | an article counts as Japanese when some character of its title is CJK |
| CjkFilter.KeepJapanese | src/Calibre_Wallabag_NewsSource.py:21-30 | the articles that stay, in their order: never more than the input, and each with a CJK title |
| CjkFilter.KeepJapaneseMembers | src/Calibre_Wallabag_NewsSource.py:21-30 | an article survives exactly when it was in the feed and its title has a CJK character |
| CjkFilter.KeepJapaneseAppend | src/Calibre_Wallabag_NewsSource.py:21-30 | filtering a concatenation filters each part, so survivors keep their relative order |
| CjkFilter.KeepJapaneseIdempotent | src/Calibre_Wallabag_NewsSource.py:21-30 | filtering twice is filtering once |
| CjkFilter.RemoveFirst | src/Calibre_Wallabag_NewsSource.py:30 | `list.remove` of a present article takes out exactly the first equal element: there is an index k holding the article, with no equal article before it, and the result is the list before k followed by the list after k |
| CjkFilter.RemoveFirstAfter | src/Calibre_Wallabag_NewsSource.py:30 | an article absent from the front part of a list is removed from the head of the back part |
| CjkFilter.FilterStep | src/Calibre_Wallabag_NewsSource.py:29-30 | removing a non-Japanese article from the live list drops exactly that article, after the survivors so far |
| CjkFilter.Feed.constructor | src/Calibre_Wallabag_NewsSource.py:18 | a feed holds the article list calibre hands back |
| CjkFilter.FilterFeed | src/Calibre_Wallabag_NewsSource.py:22-30 | after the walk over a copy, the feed holds exactly its Japanese articles in their original order |
| CjkFilter.ParseFeeds | src/Calibre_Wallabag_NewsSource.py:16-31 | the same list of feeds is returned, and every feed holds its filtered articles |
| VttToOrg.IsSpace | src/VideoToEPUB.py:54 | the white space of Python's `str.isspace`, by code point |
| VttToOrg.StripLeading | src/VideoToEPUB.py:40 | `lstrip()`: the text after its leading white space |
| VttToOrg.StripTrailing | src/VideoToEPUB.py:54 | `rstrip()`: the text before its trailing white space |
| VttToOrg.StripLeadingFacts | src/VideoToEPUB.py:54 | `lstrip` removes only leading white space and leaves none at the front |
| VttToOrg.StripTrailingFacts | src/VideoToEPUB.py:54 | `rstrip` removes only trailing white space and leaves none at the end |
| VttToOrg.Strip | src/VideoToEPUB.py:40-54 | `strip()` is empty exactly for a blank line and otherwise starts and ends with non-space |
| VttToOrg.HasArrow | src/VideoToEPUB.py:31 | a line is a timing line exactly when `-->` occurs in it |
| VttToOrg.NatToString | src/VideoToEPUB.py:41 | `str(n)` is non-empty decimal digits without a leading zero |
| VttToOrg.IntToString | src/VideoToEPUB.py:41 | `str(i)` is never empty and starts with `-` exactly for a negative number |
| VttToOrg.ParseInt | src/VideoToEPUB.py:40 | `int()` of stripped text: an optional sign and one or more ASCII digits, anything else the ValueError case |
| VttToOrg.ParseIntToString | src/VideoToEPUB.py:40-41 | `int(str(i)) == i` |
| VttToOrg.Timestamp | src/VideoToEPUB.py:43 | the time stamp is the first 12 characters of the timing line, or the whole line if shorter |
| VttToOrg.TitleLine | src/VideoToEPUB.py:24 | the `#+TITLE:` line with the video name and a blank line after it |
| VttToOrg.ImageName | src/VideoToEPUB.py:41 | the screenshot file name is the subtitle number followed by `.jpg` |
| VttToOrg.ImageLink | src/VideoToEPUB.py:50 | the Org link to the screenshot, on a paragraph of its own |
| VttToOrg.StepLine | src/VideoToEPUB.py:31-57 | one line of the loop fails exactly on a timing line whose previous line is missing or not an integer; otherwise it records the line as the previous line, only appends to the outline and the screenshots, and asks for one screenshot exactly on a timing line |
| VttToOrg.RunLines | src/VideoToEPUB.py:29-57 | the loop over a list of lines, stopping at the first exception |
| VttToOrg.OrgOutline | src/VideoToEPUB.py:22-57 | the title line, then the loop over every subtitle line but the first; the outline lines and the screenshots it asks for |
| VttToOrg.ConvertSubtitles | src/VideoToEPUB.py:22-57 | the loop with its four variables returns exactly OrgOutline's result, an exception included |
| VttToOrg.ErrorEndsRun | src/VideoToEPUB.py:39-40 | an exception on some line ends the conversion with that exception |
| VttToOrg.RunAppend | src/VideoToEPUB.py:29-57 | the loop over two lists of lines one after the other is the loop over their concatenation |
| VttToOrg.RunOnlyAppends | src/VideoToEPUB.py:36-50 | the output lines and screenshots only ever grow |
| VttToOrg.TitleComesFirst | src/VideoToEPUB.py:22-24 | the first output line is always `#+TITLE:` + video name |
| VttToOrg.FirstLineIgnored | src/VideoToEPUB.py:28-29 | the first subtitle line has no effect at all |
| VttToOrg.StepDrawsFrom | src/VideoToEPUB.py:31-57 | one line keeps every output line drawn from the input, never blank and never a timing line as text |
| VttToOrg.OutlineDrawsFromInput | src/VideoToEPUB.py:29-57 | every outline line after the title is input text (never blank), `* ` + an input line, or an image link, and every screenshot is taken at a timing line's first 12 characters |
| VttToOrg.TextRun | src/VideoToEPUB.py:52-57 | lines without `-->` only accumulate their non-blank lines, in order |
| VttToOrg.TrailingTextDropped | src/VideoToEPUB.py:29-60 | text after the last timing line is never written out |
| VttToOrg.OneCue | src/VideoToEPUB.py:31-57 | one cue writes the previous text without its number line, then `* ` + the number line and the link to `<number>.jpg`, and asks for one screenshot |
| VttToOrg.CuesRun | src/VideoToEPUB.py:29-57 | a list of well-formed cues writes one chapter per cue and one screenshot per cue |
| VttToOrg.VttToOutline | src/VideoToEPUB.py:22-57 | a well-formed subtitle file converts into the title and one chapter per cue; the last cue's text is never written |
| AnkiConnect.ReplaceAll | AnkiInterface.py:55 | `str.replace` of one character: no occurrence is left when the replacement does not hold it, and text without it is unchanged |
| AnkiConnect.Sanitize | AnkiInterface.py:53-55 | the two chained `replace` calls, hyphens first |
| AnkiConnect.SanitizeChar | AnkiInterface.py:55 | each character gives at most one character, never a hyphen or U+2019 |
| AnkiConnect.SanitizeIsCharwise | AnkiInterface.py:53-55 | the two chained `replace` calls drop each hyphen, turn each U+2019 into one space, and keep every other character in order |
| AnkiConnect.SanitizeAppend | AnkiInterface.py:55 | the clean-up distributes over concatenation |
| AnkiConnect.SanitizeRemovesBoth | AnkiInterface.py:53-55 | the result has no hyphen and no U+2019 |
| AnkiConnect.SanitizeLength | AnkiInterface.py:55 | the result is as long as the input less its hyphens |
| AnkiConnect.SanitizeKeepsCleanText | AnkiInterface.py:55 | text with neither character is left unchanged |
| AnkiConnect.SanitizeIdempotent | AnkiInterface.py:53-55 | cleaning twice is cleaning once |
| AnkiConnect.FormatRequest | AnkiInterface.py:29-30 | the request has exactly the keys `action`, `params` and `version`, with version 6 |
| AnkiConnect.RequestRoundTrip | AnkiInterface.py:29-30 | the action and parameters read back from the request are the ones given |
| AnkiConnect.CheckResponse | AnkiInterface.py:35-43 | a response passes exactly when it has two members, `error` null and `result` present, and then returns the result; a wrong member count is rejected first |
| AnkiConnect.AcceptedResponses | AnkiInterface.py:35-43 | the accepted responses are exactly `{"error": null, "result": v}`, and they return v |
| AnkiConnect.MissingErrorRejected | AnkiInterface.py:37-38 | a two-member response without `error` is rejected for that |
| AnkiConnect.MissingResultRejected | AnkiInterface.py:39-40 | a two-member response with `error` but without `result` is rejected for that |
| AnkiConnect.RemoteErrorRaised | AnkiInterface.py:41-42 | a well-shaped response with a non-null error raises that error |
| QuizWord.FieldValue | src/Main.cpp:235-248 | reading a field succeeds exactly when the card has it; the `std::string` assigned from `GetString()` is a prefix of the value with no NUL, the whole value when it holds none |
| QuizWord.FieldValueCut | src/Main.cpp:235-248 | a value holding a NUL is read up to just before its first NUL |
| QuizWord.FrontWithNul | src/Main.cpp:245-246 | a front card whose `Front` is `a`, NUL, `b` is quizzed on `a` |
| QuizWord.GetCardQuizWord | src/Main.cpp:222-256 | a card with neither `Lemma` nor `Front` gives the empty string; otherwise a successful result is the C-string prefix of one of the card's field values |
| QuizWord.LemmaCard | src/Main.cpp:230-241 | with `Lemma`, the word is the read `English Gloss` when fieldOrder is 1 and the `Lemma` value up to its first NUL otherwise |
| QuizWord.FrontCard | src/Main.cpp:243-248 | with `Front` and no `Lemma`, the word is the `Front` value up to its first NUL when fieldOrder is 1 and the read `Back` otherwise |
| QuizWord.LemmaTakesPrecedence | src/Main.cpp:230-243 | adding or changing `Front` never changes the word of a card with `Lemma` |
| QuizWord.QuizWordFails | src/Main.cpp:235-248 | the choice fails exactly when the branch taken reads a field the card lacks |
| QuizWord.QuizWordFromFourFields | src/Main.cpp:230-248 | a non-empty word is the read of one of `Lemma`, `English Gloss`, `Front` and `Back` |
| QuizWord.QuizWordDependsOnFourFields | src/Main.cpp:225-248 | only `Lemma`, `English Gloss`, `Front`, `Back` and whether fieldOrder is 1 decide the word |

## Left out

- File reading in `loadDictionary` (`ifstream`, `tellg`, `read`) and its progress output: the buffer's contents are the input sequence.
- The `Find '…'` line that `getDictionaryResults` prints for each query: output only.
- The MeCab tokenizer loop in `main` of `src/TextProcessor.cpp`: a foreign library, and its dictionary lookup is commented out.
- The commented-out `strstr` lookup in `src/TextProcessor.cpp` and the commented-out `convertNotes` in `AnkiInterface.py`: dead code.
- `freeDictionary` and the leaked key allocation of `finishAddWordToDictionary`: memory management has no counterpart over values.
- The duplicate-key check in `finishAddWordToDictionary` (its branch is empty) and its trailing debug `assert`: the postcondition that the key is present states what that assert checks.
- EDict2.Step: the `assert` on a newline outside VersionNumber and EntryId ends the load with MalformedLine. A release build would instead skip the assert and go on.
- EDict2.Accumulate: a character that would overflow `buffer[1024]` ends the load with WordTooLong. The source writes past the array instead.
- EDict2.Step: the `/EntL` lookahead reads only inside the buffer; near its end it counts as no marker. The source reads past the end.
- EDict2Dictionary.Dictionary.GetDictionaryResults: the copy also stops at the end of the raw buffer. The source has no range check there.
- EDict2Dictionary.Dictionary.LoadDictionary requires an empty map: the static map is empty when the program's only call runs. Calling it twice is not modelled.
- The raw buffer is a sequence of characters rather than UTF-8 bytes, so offsets count characters. The separators and the marker are ASCII and never occur inside a multi-byte sequence, so the state machine takes the same branches on the same text.
- EDict2.Accumulate: the 1024 limit counts characters, not bytes as `char buffer[1024]` does. A word longer than 1024 bytes, such as 400 kana (1200 bytes), still accumulates here, where the source has already written past its array. Keys agree with the source only for words that fit in 1024 bytes.
- EDict2.EntryText: the lookup limit counts characters, not bytes as `outBufferSize` does. The source's copy can stop in the middle of a multi-byte character; this one never does, and it keeps more text than the source when the line holds such characters.
- `reserve(190000)` of the hash map: performance only.
- The calibre `BasicNewsRecipe.parse_feeds` parent call and the recipe's configuration: a library outside this model; its result is the input list of feeds.
- The unused `latinRanges` table of the calibre recipe.
- CjkFilter.FilterFeed: `list.remove` compares articles by value here, not by identity. Two articles with equal titles are either both kept or both removed, so the result is the same.
- Python 2 narrow builds, where `ord` of an astral character fails: characters are whole code points.
- `subprocess.call` to ffmpeg and its `print`, `os.makedirs`, the path handling and the file write in `src/VideoToEPUB.py`: the ffmpeg calls are recorded as Screenshot requests and the file's lines are the result.
- VttToOrg.ParseInt: reads an optional sign and ASCII digits only. Python's `int` also accepts other Unicode digits and `_` between digits.
- The network call, `json.dumps` encoding and `json.load` decoding in `invokeAnkiConnect`: the response is given as a decoded JSON object.
- AnkiConnect.CheckResponse: a response that is not a JSON object, and JSON floats, are not modelled.
- `getNotes`, `getDueNotes`, `testConnection` and the argparse set-up of `AnkiInterface.py`: network and command-line glue.
- QuizWord.GetCardQuizWord: `fieldOrder` is taken as already read. A missing `fieldOrder` or `fields`, a non-integer `fieldOrder`, or a field without a string `value` (rapidjson asserts) is not modelled. A missing field that the chosen branch reads is the MissingField error.
- The "unrecognized fields" message of `getCardQuizWord`: output only.
- The curl and rapidjson plumbing, the pacing arithmetic, `sleep_for` and the clock reads of `src/Main.cpp`: network, floating point and timing.
- `src/Notifications_LibNotify.cpp`: a thin wrapper over libnotify.
