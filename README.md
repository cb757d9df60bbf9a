# Card scraper bot — verified model of the scanning core

`scper.py` is a Telegram bot. On `/scr <chat> <amount> [<start>]` it reads the recent
history of a chat through a user session. It picks out card-like strings with a regular
expression and normalises each one to `card|month|yy|cvv`. It drops duplicates and
replies with a text file named `x<count>_<chat name>.txt`.

This project models the parts of that program that decide what ends up in the file:

* `wrappers.dfy`: `Option` and `Result`.
* `strings.dfy`: the Python string operations the core relies on:
  * `str.split()` as maximal runs of non-whitespace;
  * `re.findall(r'\d+')` as maximal runs of ASCII digits;
  * `split('/')` and joining with a bar;
  * `int()` on an optional sign followed by digits;
  * decimal rendering of a count.
* `records.dfy`: turning one regex match into a record (lines 47-55):
  * exactly four digit groups;
  * a 15- or 16-digit card;
  * a month from 1 to 12;
  * the year cut to its last two characters.

  It also defines `IsRecord`, the shape every record has.
* `dedupe.dfy`: `remove_duplicates` (lines 27-30).
* `scanner.dfy`: `scrape_messages` (lines 32-66), written as an imperative method.
  * The message history is a sequence of fetch steps. A step either delivers a message or
    fails, which is where the iterator would raise.
  * `ScrapeMessages` runs the source's loop: the `count >= limit` break, text before
    caption, the matches of one message appended together, and the exception turning
    into an empty result.
  * Afterwards it applies the start-number filter and the `[:limit]` slice.
  * It is proved equal to the functional specification `Scan`, and the properties are
    lemmas about `Scan`.
* `command.dfy`: the `/scr` handler (lines 127-143 and 163-186):
  * the argument count;
  * the amount read with `int()`;
  * a ceiling of `ADMIN_LIMIT` for admins and `DEFAULT_LIMIT` otherwise;
  * the optional start number;
  * `https://t.me/` links reduced to their last path segment;
  * the file name, and the choice between sending a file and the "no card" message.

Behaviours of the code that the model keeps:

* The history is read with `limit*10` as the fetch limit. For `limit <= 0` the reader
  gets no positive cap (the client treats 0 as "no limit"). The loop still stops at its
  first item, so the result is empty either way.
* A failing fetch is observed before the `count >= limit` test. A failure at the step
  right after the limit was reached therefore still discards everything collected
  (`Scanner.ScanFailureDiscards`).
* `records[:limit]` follows Python slicing, negative `n` included (`Scanner.Take`). In
  the scan a negative amount never reaches the slice with records: the loop stops at its
  first message (`Scanner.FirstStepStops`), so the slice always sees an empty list.
* `if start_number:` and `message.text if message.text else message.caption` test
  truthiness: an empty string counts as absent.
* `list(set(messages))` has no defined order. The model keeps the first occurrence of
  each record. `Dedupe.UniqueListsArePermutations` shows that any duplicate-free list with
  the same elements is a permutation of it, so the choice only fixes the order.
* The code has no check on the length of the BIN and no filter by bank. It does not check
  the year or the cvv, keeps nothing collected before an error, and reads one chat per
  command. The model has none of these either.

## Model

| member | source | states |
|---|---|---|
| Strings.DigitRuns | scper.py:47 | `re.findall(r'\d+', s)` returns non-empty runs of digits only; a non-empty all-digit string is one run (`Strings.RunsOfInterleave` gives the runs of digit groups between non-digit gaps of any length) |
| Strings.Tokens | scper.py:127 | `str.split()` returns non-empty words with no blank in them; a string of blanks only has no words (`Strings.TokensOfSpacedWords` gives the words between runs of blanks) |
| Strings.SplitOn | scper.py:141 | `s.split(sep)` has at least one piece and no piece contains `sep` |
| Strings.ParseInt | scper.py:132 | `int()` reads a value exactly when the text is digits with an optional leading sign; the value is negative only with a leading `-`, and never negative otherwise |
| Strings.RunsOfJoin | scper.py:127 | splitting a blank-joined list of non-empty, blank-free words on whitespace gives back exactly those words (the same holds for digit runs, as used by `\d+` at line 47) |
| Strings.RunsSkipGap | scper.py:47 | a gap of any length with no character of the run alphabet contributes no run: `\d+` skips any run of non-digits, `split()` any run of blanks |
| Strings.RunsOfInterleave | scper.py:47 | a text holding non-empty runs separated by non-empty gaps of any length, with gaps of any length before and after, has exactly those runs |
| Strings.TokensOfSpacedWords | scper.py:127 | `str.split()` of blank-free words separated by runs of blanks of any length, with blanks before and after, is exactly those words |
| Strings.LastPieceOfSplit | scper.py:141 | the last piece of `s.split('/')` contains no `/` and is a suffix of `s`; when `s` has a `/` the piece is shorter than `s` and directly preceded by a `/`; with no `/` in `s` the split is `[s]` |
| Strings.SplitOfJoin | scper.py:141 | `split(sep)` recovers the pieces of `sep.join(pieces)` when no piece contains `sep` |
| Strings.JoinOfSplit | scper.py:141 | `sep.join(s.split(sep))` is `s` |
| Strings.DecimalString | scper.py:166 | `str(n)` is a non-empty string of decimal digits with no leading zero, `"0"` for zero (`Strings.ValueOfDecimal` reads it back) |
| Strings.ValueOfDecimal | scper.py:166 | reading a rendered count back as digits gives the count |
| Strings.ParseIntOfDecimal | scper.py:132 | `int()` reads the decimal rendering of `n` as `n`, and with a leading `-` as `-n` |
| Records.LastTwo | scper.py:53 | `year[-2:]` is a suffix of at most two characters: the whole string when it has at most two, exactly two otherwise |
| Records.FormatMatch | scper.py:47-55 | a match yields a record iff it has exactly four digit groups, the first 15 or 16 long and the second a month 1..12; splitting the record at the bar separator gives card, month, last two characters of the year, cvv, and the record satisfies `IsRecord` |
| Records.RecordIsFixedPoint | scper.py:47-55 | every well-formed record is turned into itself |
| Records.FormatMatchIdempotent | scper.py:47-55 | formatting a record a second time changes nothing |
| Records.FormatAll | scper.py:45-56 | the records of one message are never more than its matches |
| Records.FormatAllSound | scper.py:45-56 | each record of a message is well formed and is the formatting of one of its matches |
| Records.FormatAllComplete | scper.py:45-56 | every match yields a record iff the record list is as long as the match list |
| Records.FormatAllAppend | scper.py:45-56 | the records of two runs of matches are the records of the first followed by those of the second |
| Records.FormatAllOne | scper.py:46-55 | a single match contributes its record when it passes the checks and nothing otherwise |
| Records.FormatAllKeepsPassing | scper.py:45-56 | a passing match's record appears in the message's records, at the position counted by the passing matches before it |
| Records.DigitRunsOfFourGroups | scper.py:35-47 | text of four digit groups separated by non-empty non-digit gaps of any length, the shape the card pattern's `\D*` matches, has exactly those four groups as its digit runs |
| Records.FormatMatchOfFourGroups | scper.py:35-55 | text of four digit groups separated by non-empty non-digit gaps of any length, with a 15- or 16-digit card and a month 1..12, becomes card, month, last two of the year and cvv joined by bars |
| Records.ValidCardExample | scper.py:47-55 | `4111111111111111 05/26 123` becomes the record of card `4111111111111111`, month `05`, year `26`, cvv `123` |
| Records.LongGapExample | scper.py:35-55 | a card line whose groups are separated by multi-character separators (a bar between blanks, then a bar, blanks and `cvv:`) becomes the same record as with single-character ones |
| Records.FourDigitYearExample | scper.py:53 | a four-digit year `2031` is cut to `31` |
| Records.BadMonthExample | scper.py:52 | a month of `13` yields no record |
| Dedupe.Distinct | scper.py:28 | the result holds no duplicate, has exactly the elements of the input, and is no longer than it |
| Dedupe.RemoveDuplicates | scper.py:27-30 | the unique list is duplicate-free with the input's elements, and its length plus the removed count is the input length (the count is never negative) |
| Dedupe.UniqueListsArePermutations | scper.py:28 | two duplicate-free lists with the same elements are permutations of each other, so the order chosen for `list(set(...))` changes nothing else |
| Dedupe.RemoveDuplicatesIdempotent | scper.py:27-30 | deduplicating a deduplicated list returns it unchanged with zero removed |
| Dedupe.RemoveDuplicatesExample | scper.py:27-30 | two copies of one record and one other record give two records and one removed |
| Scanner.TextOf | scper.py:41-42 | the text scanned is empty iff both text and caption are empty or absent; otherwise it is the text when that is non-empty, the caption when not |
| Scanner.Produced | scper.py:41-58 | only a delivered message with a non-empty text or caption contributes records, and each one is well formed |
| Scanner.Gather | scper.py:57 | the records gathered over a run of steps: each step's records appended in order, as `messages.extend` does; its properties are `Scanner.GatherGrows` and `Scanner.AccumulatedAppend` |
| Scanner.Accumulated | scper.py:41-58 | `Scanner.Gather` with each message read as `Produced` reads it |
| Scanner.ReadWindow | scper.py:38 | the messages read are a prefix of the history, at most `limit*10` of them, exactly that many when the history is that long, and the whole history when `limit <= 0` or the history is no longer than `limit*10` |
| Scanner.FetchCount | scper.py:38 | the number of messages the history iterator yields is at most the history's length, and they are exactly the window `ReadWindow` reads |
| Scanner.StopIndex | scper.py:38-40 | the step at which the loop ends, at or after the step it starts from and at most the end of the window (`Scanner.StopIndexIsFirst` states that it is the first stopping step) |
| Scanner.Collect | scper.py:37-61 | the outcome of the `try` block: `Aborted` when the stopping step is a failing fetch, otherwise the records gathered before it |
| Scanner.StopIndexIsFirst | scper.py:38-40 | the loop stops at the first step that fails or at which `limit` records are already collected, and at no earlier step |
| Scanner.StopOnFailure | scper.py:37-61 | a fetch that raises before the loop has ended turns the whole `try` block into the exception path |
| Scanner.StopWithRecords | scper.py:39-40 | once `limit` records are gathered at a delivered message, or the window is read, the `try` block ends with exactly the records gathered so far |
| Scanner.ContinuePast | scper.py:39-40 | a delivered message read while fewer than `limit` records are gathered does not end the loop |
| Scanner.FormatOne | scper.py:47-55 | the checks on one match (four digit runs, a 15- or 16-digit card, a month from 1 to 12) and its formatting give exactly the record `FormatMatch` defines, or none |
| Scanner.FormatMatches | scper.py:45-56 | the inner loop produces the records of `FormatAll` for the matches |
| Scanner.ReadMessage | scper.py:41-56 | one message's text-or-caption search and formatting produce exactly what `Produced` says that message contributes (stated through any per-message producer that agrees with `Produced`) |
| Scanner.ReadHistory | scper.py:37-61 | the history loop with its `count >= limit` check and its exception path ends exactly as `Collect` says: `Aborted` at the first failing fetch before the loop ends, otherwise the records of every message read before it ended |
| Scanner.ScrapeMessages | scper.py:32-66 | the loop, the exception path, the prefix filter and the final slice together return `Scan(history, limit, start, findall)` |
| Scanner.KeepPrefixed | scper.py:63-64 | the filter keeps only records starting with the prefix, every such record, and nothing else |
| Scanner.KeepPrefixedCounts | scper.py:64 | each record starting with the prefix is kept as many times as it occurs, and every other record zero times |
| Scanner.KeepPrefixedEmbeds | scper.py:64 | the filter keeps the order of the records: its result sits at increasing positions of its input |
| Scanner.KeepPrefixedAppend | scper.py:64 | filtering two runs of records one after the other is filtering their concatenation |
| Scanner.Take | scper.py:65 | `s[:n]` is a prefix of `s` whose length follows Python slicing for positive and negative `n` |
| Scanner.Finish | scper.py:63-65 | after the filter and the slice, at most `limit` entries remain, each one of the records and starting with the start number when one is given; without one the result is a prefix of the records |
| Scanner.Scan | scper.py:63-66 | the result never holds more than `limit` records, and none when `limit <= 0` |
| Scanner.CaptionIgnoredWithText | scper.py:41 | when a message's text is non-empty, its caption, whatever it is, changes nothing |
| Scanner.CaptionStandsInForText | scper.py:41 | a message without text contributes what a message whose text is its caption would |
| Scanner.AccumulatedSnoc | scper.py:57 | reading one more message appends exactly that message's records |
| Scanner.AccumulatedAppend | scper.py:57 | the records of two runs of the history read one after the other are the records of the first followed by those of the second |
| Scanner.EmptyMessageAddsNothing | scper.py:41-44 | a message with neither text nor caption leaves the collected records unchanged |
| Scanner.AccumulatedAreRecords | scper.py:57 | every collected entry is a well-formed record |
| Scanner.AccumulatedGrows | scper.py:57-58 | collecting over a longer prefix of the history extends the records collected over a shorter one |
| Scanner.CollectStopsAtLimit | scper.py:39-40 | whatever each message contributes, without an error the loop collects a prefix of all records of the window; it stops only once `limit` is reached or the window is read, and it overshoots `limit` by less than one message's records |
| Scanner.FirstStepStops | scper.py:38-40 | with `limit <= 0` the loop ends at its first message |
| Scanner.ScanPositions | scper.py:57-65 | the entries returned sit, in the same order, at increasing positions of the records collected from the messages read |
| Scanner.ScanKeepsPrefix | scper.py:63-64 | with a start number, every returned entry starts with it |
| Scanner.ScanRecords | scper.py:57-65 | every returned entry is a well-formed record collected from the messages read and starts with the start number when one is given; the result is the collected records with some left out, in their order |
| Scanner.NoStopBefore | scper.py:38-40 | whatever each message contributes, while all messages are delivered and fewer than `limit` records were collected, the loop does not stop |
| Scanner.ScanFailureDiscards | scper.py:59-61 | a failing fetch reached before the loop ends makes the whole result empty |
| Scanner.ScanReadsWindowOnly | scper.py:38 | histories that agree on their first `limit*10` messages give the same result |
| Command.ChannelUsername | scper.py:140-143 | a non-link identifier is used as given; a `https://t.me/` link becomes a slash-free suffix of it, shorter than it and directly preceded by a `/` |
| Command.Arguments | scper.py:127 | `split()[1:]` gives non-empty, blank-free words |
| Command.MaxLimit | scper.py:133 | `ADMIN_LIMIT` for a caller in `ADMIN_IDS`, `DEFAULT_LIMIT` for anyone else |
| Command.ChannelLinkRoundTrip | scper.py:140-141 | `https://t.me/<name>` with a slash-free name reduces to `name` |
| Command.ChannelLinkLastSegment | scper.py:140-141 | a link with more path segments reduces to its last segment |
| Command.ParseScr | scper.py:127-137 | an accepted command has a sender and an amount within that sender's ceiling, and its start number, when present, is a non-empty blank-free word |
| Command.ArgumentsOfCommand | scper.py:127 | the arguments of a blank-joined command are the words after the first |
| Command.ArgumentsOfSpacedCommand | scper.py:127 | a command typed with runs of blanks between its words, and blanks before and after them, has the words after the first as its arguments |
| Command.ParseScrUsage | scper.py:127-130 | a command with fewer than two or more than three argument words is answered with the usage message, whatever the words and the sender |
| Command.ParseScrBadAmount | scper.py:131-132 | a well-formed command whose amount `int()` cannot read fails on the amount, before the sender is looked at |
| Command.ParseScrAnonymous | scper.py:132-133 | a well-formed command with a readable amount and no sender fails on the sender |
| Command.ParseScrOverLimit | scper.py:133-136 | an amount above the ceiling is refused with that ceiling: `ADMIN_LIMIT` for an admin, `DEFAULT_LIMIT` for anyone else |
| Command.ParseScrRoundTrip | scper.py:127-143 | `/scr <chat> <n> [<start>]` with blank-free words and `n`, positive or negative, within the ceiling is accepted with exactly that reduced chat, amount and start number |
| Command.ReplaceSpaces | scper.py:166 | `replace(' ', '_')` keeps the length and changes exactly the blanks |
| Command.FileName | scper.py:166 | the file name is `x`, the record count as `str()` writes it, `_`, the chat name with every blank turned into `_`, and `.txt`; it contains no blank, and its first digit run reads back as the count |
| Command.Report | scper.py:163-186 | a file is sent iff the scan found any record; it lists each distinct record once, the duplicate count makes up the difference, and it is named after its number of lines |

## Left out

- Telegram I/O is not modelled: the bot and user clients, `get_chat_history`, `reply_text`, `send_document` and message deletion. The history enters as a parameter, a sequence of fetch steps.
- The chat lookup at lines 147-161 is not modelled. It tries `get_chat` by name, then by numeric id. When both fail, `chat` is never assigned, so line 161 raises `UnboundLocalError`. The `except` at line 188 then replies with an "Error:" message and no scan runs. The raw-name fallback at line 158 therefore never reaches a file name. The model takes the chat name as a parameter of `Report`.
- Writing, reopening and removing the temporary file (lines 167-183) and the text of the replies (lines 68-123, 171-179) are not modelled.
- The outer `except` of the handler (lines 188-190) is not modelled. Its failures come from the client and the file system, which are outside the model.
- The `asyncio` queue and the worker counts are unused by the core and not modelled.
- The card regular expression (line 35) is not implemented. `re.findall(pattern, text)` is a function parameter, and the lemmas hold for every matcher.
- Command.ParseScr: an amount `int()` cannot read (line 132) and a message without a sender (`from_user` is `None` at line 133) raise outside any `try` in the source, so the handler ends without a reply. The model returns the rejections `BadAmount` and `AnonymousSender` instead.
- Strings.ParseInt: Python 3 `int()` also accepts every Unicode decimal digit, underscores between digits and surrounding whitespace. The model accepts only an optional sign and ASCII digits, so it rejects amounts the source would read.
- Strings.DigitRuns: Python 3 `\d` matches every Unicode decimal digit, not only ASCII ones. On text with other digits the source can find digit groups that the model does not.
- Console logging of scraping errors (line 60) is not modelled.
