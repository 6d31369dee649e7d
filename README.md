# Happy Calendar journal — a Dafny model

Happy Calendar is a one-page calendar journal. It shows one month at a time
as a grid of day cards. A click on a day opens an editor for a note of at
most 15 words. Notes are kept in the browser's storage as one map from date
keys (`2024-03-07`) to texts. The map can be exported to a JSON file and
imported back, either replacing the stored notes or merged with them.

This project models the logic of `script.js` and proves what it does:

| module (file) | what it models |
|---|---|
| `Wrappers` (`wrappers.dfy`) | `Option` and `Result` |
| `Json` (`json.dfy`) | a parsed JSON value, `typeof … === 'object'` and JavaScript truthiness |
| `Words` (`words.dfy`) | `trim`, `split(/\s+/)`, the filter and `countWords`; the truncation to the first 15 words with the cursor clamp; the Enter-key guard |
| `DateKey` (`datekey.dfy`) | `getEntryKey`, with a parser that reads a key back |
| `Gregorian` (`gregorian.dfy`) | the `Date` arithmetic `renderCalendar` relies on: the weekday of the 1st and the number of days of a month |
| `Navigation` (`navigation.dfy`) | the month arithmetic of the previous/next buttons |
| `Entries` (`entries.dfy`) | the stored entry map, `saveNote`'s store-or-delete update, the export envelope, the classification of an imported document and the replace/merge step |
| `Journal` (`journal.dfy`) | the application state as a class `CalendarApp` (`currentYear`, `currentMonth`, the stored map) with the handlers that change it, and the two loops that lay out the month grid |

Some choices the model makes:

- The browser's storage is the field `CalendarApp.stored`. `getEntries`
  returns it; `saveEntries` replaces it. A missing storage item is the
  empty map.
- `confirm` is a boolean parameter (`replace`). The parsed import file is a
  parameter of type `Option<Json>`, where `None` stands for a file that
  `JSON.parse` rejected. The alerts become the `ImportError` and
  `SaveResult` values.
- Whitespace is the exact set of characters that JavaScript's `\s` matches
  and `trim` removes: tab, line feed, vertical tab, form feed, carriage
  return, space, U+00A0, U+1680, U+2000–U+200A, U+2028, U+2029, U+202F,
  U+205F, U+3000 and U+FEFF.
- The cursor of the note editor (`selectionStart`) and `first15.length` are
  counted in UTF-16 code units, as JavaScript counts them (`Utf16Length`).
  A Dafny character is a Unicode scalar value, so a lone surrogate cannot
  occur in the model's text.
- `countWords` is defined as the code computes it: trim, split, drop the
  empty pieces, count. The lemma `CountWordsIsRuns` then proves it equal to
  an independent count of maximal runs of non-whitespace characters.
- The weekday of the 1st and the month length follow the day arithmetic of
  section 21.4.1 of ECMA-262 (DayFromYear, DaysInYear, MakeDay, WeekDay;
  day 0 is Thursday 1 January 1970). The number of days is modelled the way
  the code obtains it: `new Date(y, m + 1, 0).getDate()` is the distance
  from the 1st to day 0 of the next month, plus one. `DaysInMonthIsMonthLength`
  proves that this equals the Gregorian month table.
- The `Date` constructor reads the years 0 to 99 as 1900 to 1999
  (`DateCtorYear`). The grid geometry uses that year. The entry keys use
  `currentYear` as it is. So in the year 0 a February has 28 days.
- An import whose document is `null` ends in the read error, not in the
  file-format error. `typeof null` is `'object'`, so `null` passes the first
  check at script.js:242. Reading `happyCalendarEntries` from it then throws
  at script.js:249, and the `catch` at script.js:284-286 reports it. A
  document can also have an envelope member that is truthy, has `typeof`
  `'object'`, and is an array. Such a document is refused by the second
  check (script.js:258-261), not taken as a legacy map. The code decides
  these cases; the model follows the code.

## Model

| member | source | states |
|---|---|---|
| Words.IsSpace | script.js:34 | the characters `\s` matches and `trim` removes: tab, line feed, vertical tab, form feed, carriage return, space, U+00A0, U+1680, U+2000–U+200A, U+2028, U+2029, U+202F, U+205F, U+3000 and U+FEFF (definition) |
| Words.TrimStart | script.js:34 | drops exactly the leading whitespace run, the first half of `text.trim()` (definition; its properties are in `SpacePrefix` and the trim lemmas below) |
| Words.TrimEnd | script.js:34 | drops exactly the trailing whitespace run, the second half of `text.trim()` (definition; its properties are in `SpaceSuffix` and the trim lemmas below) |
| Words.Trim | script.js:34 | `text.trim()`: both runs dropped (definition; `TrimIdempotent`, `TrimEmptyIffBlank` and `CountWordsOfTrim` state its properties) |
| Words.CountedWords | script.js:34 | the pieces `countWords` counts: trim, split, drop the empty pieces (definition; `WordsOfSpacedText` and `TextIsSpacedWords` state which words they are) |
| Words.CountWords | script.js:33-35 | `countWords(text)`: the number of counted pieces (definition; `CountWordsIsRuns` proves it equal to an independent count) |
| Words.SpacePrefix | script.js:34 | the length of the leading whitespace run that `trim` removes: every character before it is whitespace, the one after it is not |
| Words.SpaceSuffix | script.js:34 | the length of the trailing whitespace run that `trim` removes: every character after the kept part is whitespace, the last kept one is not |
| Words.WordPrefix | script.js:34 | the length of the first piece of `split(/\s+/)`: no whitespace inside it, whitespace right after it |
| Words.Split | script.js:34 | `split(/\s+/)` always yields at least one piece, and no piece contains whitespace (`SplitJoinWith` and `SplitDecomposes` state which pieces) |
| Words.NonEmpty | script.js:34 | `filter(word => word.length > 0)` keeps only non-empty pieces |
| Words.CountWordsIsRuns | script.js:33-35 | `countWords` equals the number of maximal runs of non-whitespace characters, counted independently of trim/split/filter |
| Words.CountWordsZeroIffBlank | script.js:33-35 | the count is 0 exactly for empty or whitespace-only text |
| Words.CountWordsOfTrim | script.js:188-189 | counting the trimmed text, as `saveNote` does, gives the same count as counting the raw text |
| Words.TrimEmptyIffBlank | script.js:188 | `text.trim()` is empty exactly when the text is all whitespace, the case in which `saveNote` deletes the key |
| Words.TrimIdempotent | script.js:188 | trimming twice is trimming once, so a saved note is already trimmed |
| Words.SplitJoin | script.js:176-177 | splitting words joined by single spaces gives the same word list back |
| Words.WordsOfJoin | script.js:176-177 | the words counted in a joined word list are exactly that list |
| Words.SplitJoinWith | script.js:34 | `split(/\s+/)` of words separated by gaps of any non-empty whitespace gives exactly those words, in order |
| Words.SplitDecomposes | script.js:34 | text without outer whitespace is its split pieces with a non-empty gap of whitespace between each two neighbours |
| Words.WordsOfSpacedText | script.js:33-35 | for any words separated by any non-empty whitespace gaps, with any whitespace before and after, the words `countWords` counts are exactly those words, in order |
| Words.TextIsSpacedWords | script.js:33-35 | every text is whitespace, then the words `countWords` counts separated by non-empty whitespace gaps, then whitespace; with `WordsOfSpacedText`, the counted words are the text's maximal non-whitespace runs in order |
| Words.Join | script.js:177 | `words.join(' ')`: the words with one space between neighbours (definition; `SplitJoin` proves split inverts it) |
| Words.Truncated | script.js:176-177 | `text.trim().split(/\s+/).slice(0, 15).join(' ')` (definition; `TruncationKeepsFirstWords` states what it yields) |
| Words.Utf16Length | script.js:181 | `first15.length` counts UTF-16 code units: at least one and at most two per character, exactly one per character when none lies above U+FFFF |
| Words.EnforceLimit | script.js:174-182 | the truncation pass over the text and the cursor (definition; `EnforceLimitBounds` and `EnforceLimitIdempotent` state its properties) |
| Words.TruncationKeepsFirstWords | script.js:174-182 | over 15 words, the truncated text is the first 15 counted words joined by single spaces; its words are those 15 and it counts 15 |
| Words.EnforceLimitBounds | script.js:174-182 | after the truncation pass the note has at most 15 words; the cursor, in UTF-16 code units, becomes `min(cursor, new length)` and stays within the text; a note within the limit is left as it is |
| Words.EnforceLimitIdempotent | script.js:174-182 | a second truncation pass changes neither the text nor the cursor |
| Words.EnterSuppressed | script.js:145-150 | the key-down handler cancels the key exactly when it is Enter and the note has 15 words or more (definition; `EnterKeepsLimit` states what it guarantees) |
| Words.EnterKeepsLimit | script.js:145-150 | an Enter that the guard lets through (fewer than 15 words) inserts a line break after which the note still has at most 15 words |
| DateKey.IntString | script.js:29 | `${year}` and `String(n)`: a minus sign before the digits of a negative number (definition; `ParseIntString` proves it readable back) |
| DateKey.PadStart2 | script.js:29 | `padStart(2, '0')`: strings of two or more characters unchanged, shorter ones padded with `0` in front (definition; `EntryKeyShape` states its effect on months and days) |
| DateKey.EntryKey | script.js:28-30 | `getEntryKey(year, month, day)` (definition; `EntryKeyShape`, `EntryKeyRoundTrip`, `EntryKeyInjective` and `KeyOrderIsDateOrder` state its properties) |
| DateKey.NatString | script.js:29 | `String(n)` of a non-negative integer is a non-empty string of decimal digits |
| DateKey.EntryKeyShape | script.js:28-30 | for month 0–11 and day 1–31, the key is the year as JavaScript writes it, then `-`, the two-digit 1-based month, `-` and the two-digit day: six characters after the year |
| DateKey.FourDigitYears | script.js:28-30 | the key has the ten-character `YYYY-MM-DD` shape for the years 1000–9999; the only other years with ten-character keys are −999 to −100 (the year is not padded) |
| DateKey.ParseIntString | script.js:29 | reading back the decimal form of any integer, including a negative year, gives the integer |
| DateKey.EntryKeyRoundTrip | script.js:28-30 | parsing a key gives back the year, the 0-based month and the day it was built from |
| DateKey.EntryKeyInjective | script.js:28-30 | distinct dates (month 0–11, day 1–31) have distinct keys, so no two days share a stored note |
| DateKey.DigitsOrder | script.js:29 | zero-padded decimal strings of one width sort exactly as the numbers they write |
| DateKey.KeyOrderIsDateOrder | script.js:28-30 | for the years 1000–9999 (month 0–11, day 1–31) one key sorts before another exactly when its date is earlier |
| DateKey.KeyOrderOutsideFourDigitYears | script.js:28-30 | outside those years key order and date order disagree: `999-12-31` sorts after `1000-01-01`, and `-1-01-01` before `-2-01-01` |
| Gregorian.DaysInYear | script.js:63-64 | ECMA-262's DaysInYear: 366 for years divisible by 4 and not by 100, or by 400, else 365 (definition; `LeapRule` states it) |
| Gregorian.DayFromYear | script.js:63-64 | ECMA-262's DayFromYear, the day number of 1 January (definition; `YearLength` proves consecutive years differ by DaysInYear) |
| Gregorian.MakeDay | script.js:63-64 | ECMA-262's MakeDay, with the month rolling over into the year (definition; `DaysInMonthIsMonthLength` relies on it) |
| Gregorian.WeekDay | script.js:63 | ECMA-262's WeekDay, `(day + 4) mod 7` with Thursday 1 January 1970 as day 0 (definition; `FirstWeekday` states its range) |
| Gregorian.DateCtorYear | script.js:63-64 | the `Date` constructor reads the years 0–99 as 1900–1999 and other years as written (definition) |
| Gregorian.DaysInMonth | script.js:64 | `new Date(year, month + 1, 0).getDate()` (definition; `DaysInMonthIsMonthLength` and `DaysInMonthRange` state its value) |
| Gregorian.FirstWeekday | script.js:63 | `new Date(year, month, 1).getDay()` lies in 0–6 |
| Gregorian.YearLength | script.js:63-64 | from 1 January of one year to the next there are DaysInYear days, 365 or 366 |
| Gregorian.LeapRule | script.js:64 | a year has 366 days exactly when it is divisible by 4 and not by 100, or divisible by 400 |
| Gregorian.DaysInMonthIsMonthLength | script.js:64 | `new Date(year, month + 1, 0).getDate()` equals the Gregorian length of the month, for the year the `Date` constructor uses |
| Gregorian.DaysInMonthRange | script.js:64 | a month has 28 to 31 days; February has 29 exactly in the leap years |
| Gregorian.FirstWeekdayOfNextMonth | script.js:63-64 | the 1st of the next month falls `daysInMonth` weekdays after this month's 1st, also across the December–January turn |
| Navigation.Next | script.js:305-310 | the next-month handler's update of (year, month) (definition; `NextStep` and `PrevNextInverse` state its properties) |
| Navigation.Prev | script.js:295-300 | the previous-month handler's update of (year, month) (definition; `PrevStep` and `PrevNextInverse` state its properties) |
| Navigation.NextStep | script.js:305-310 | next keeps the month in 0–11, moves exactly one month forward, and turns (y, 11) into (y+1, 0) |
| Navigation.PrevStep | script.js:295-300 | previous keeps the month in 0–11, moves exactly one month back, and turns (y, 0) into (y−1, 11) |
| Navigation.MonthIndexInjective | script.js:295-310 | a month in 0–11 is determined by its position on the line of months, so navigation never reaches the same position under two names |
| Navigation.PrevNextInverse | script.js:295-310 | next after previous, and previous after next, return to the month one started from |
| Json.Truthy | script.js:81 | JavaScript truthiness of a parsed value, as `if (entry)` (script.js:81), the empty-string fallback of the editor (script.js:123) and the envelope test (script.js:249) use it: `null`, `false`, `0` and `""` are falsy, every other value truthy (definition) |
| Json.TypeofObject | script.js:242 | `typeof v === 'object'`: true exactly of `null`, arrays and objects (definition) |
| Json.IsArray | script.js:242 | `Array.isArray(v)`: true exactly of arrays (definition) |
| Entries.StoreOrDelete | script.js:199-203 | `if (text) entries[key] = text; else delete entries[key]` (definition; `StoreOrDeleteOutcome` states its outcome) |
| Entries.EditorPrefill | script.js:123 | `entries[entryKey]`, or `''` when that value is falsy (definition; `SaveThenReopen` states its value after a save) |
| Entries.ExportDocument | script.js:219-221 | the export envelope `{ happyCalendarEntries: entries }` (definition; `ExportImportRoundTrip` proves it imports back) |
| Entries.EntriesToImport | script.js:238-261 | the classification of a parsed import document (definition; `ImportRejectsNonObjects` and `ImportOfObject` state every case) |
| Entries.ResolveImport | script.js:264-280 | the replace-or-merge step (definition; `ResolveImportOutcome`, `MergeIdempotent` and `ReimportOwnExport` state its properties) |
| Entries.StoreOrDeleteOutcome | script.js:199-203 | a non-empty text is stored under its key, an empty one deletes the key, and every other key keeps its presence and its value |
| Entries.SaveNoteOutcome | script.js:188-203 | after a save the key holds the trimmed text when the text is not blank and is absent when it is blank; every other key is untouched |
| Entries.SaveKeepsNotesOnly | script.js:186-205 | a store holding only non-empty, trimmed notes of at most 15 words still does after any accepted save |
| Entries.SaveThenReopen | script.js:121-123 | reopening a day after a save shows the saved trimmed text, or the empty text after a deletion |
| Entries.ImportRejectsNonObjects | script.js:238-245 | a document that cannot be parsed, and `null`, end in the read error; a boolean, number, string or array ends in the file-format error |
| Entries.ImportOfObject | script.js:247-261 | an object envelope gives its contents; an array envelope is refused; any other document is itself the entry map of the older format |
| Entries.ExportImportRoundTrip | script.js:219-221 | importing the document built by `exportEntries` yields exactly the exported map |
| Entries.ResolveImportOutcome | script.js:264-280 | with no current entries the result is the incoming map whatever the choice; replace yields the incoming map; merge yields the union of the keys, the incoming value winning and keys only in the current map kept |
| Entries.MergeIdempotent | script.js:273-275 | merging the same file a second time changes nothing |
| Entries.ReimportOwnExport | script.js:217-280 | importing the store's own export leaves the store unchanged, whether the user replaces or merges |
| Journal.HasEntry | script.js:77-83 | a card is marked when `entries[entryKey]` is truthy (definition) |
| Journal.IsGrid | script.js:67-83 | the cells after the day labels: `firstDay` empty cells, then one card per day in order, each marked by `HasEntry` (specification of `LayOutCells`) |
| Journal.IsMonthGrid | script.js:63-83 | `IsGrid` with the weekday of the 1st and the month length that the `Date` object gives (specification of `RenderGrid`) |
| Journal.SavedNoteMarksCard | script.js:78-83 | after a save the day's card is marked exactly when the saved text is not blank |
| Journal.LayOutCells | script.js:67-83 | the two loops yield `firstDay` empty cells, then the cards of days 1 to `daysInMonth` in order, each marked exactly when its key holds a truthy value |
| Journal.CalendarApp.constructor | script.js:2-4 | the application starts on a given month in 0–11 with whatever the storage holds |
| Journal.CalendarApp.GetEntries | script.js:17-20 | reading the store returns the stored map |
| Journal.CalendarApp.SaveEntries | script.js:23-25 | writing the store replaces the whole map |
| Journal.CalendarApp.SaveNote | script.js:186-205 | over 15 words (trimmed), the save is refused and the store is unchanged; otherwise the trimmed text is stored under the day's key or the key is deleted, and nothing else changes |
| Journal.CalendarApp.ExportEntries | script.js:217-221 | the export is an object with the single member `happyCalendarEntries` holding the stored map, and it imports back to exactly that map |
| Journal.CalendarApp.ImportEntries | script.js:238-286 | a refused document gives its error and leaves the store unchanged; an accepted one sets the store to the replace/merge result for the user's choice |
| Journal.CalendarApp.PrevMonth | script.js:295-300 | the displayed (year, month) becomes the previous month, and the month stays in 0–11 |
| Journal.CalendarApp.NextMonth | script.js:305-310 | the displayed (year, month) becomes the next month, and the month stays in 0–11 |
| Journal.CalendarApp.RenderGrid | script.js:63-83 | the grid of the displayed month: as many empty cells as the weekday of the 1st, then one card per day of the month in order, marked exactly when the stored value under its key is truthy |

## Left out

- DOM work: element creation, CSS classes, styles, focus, the modal dialog and the month title (script.js:45-60, 85-110, 116-139, 155-172, 211-214). The grid is modelled as its sequence of cells.
- `alert` and `confirm` are not modelled as dialogs. Alerts become result values, and the answer to `confirm` is a parameter.
- The file download: `Blob`, `URL.createObjectURL`, the link, and the date-stamped file name from the wall clock (script.js:222-231).
- The file reading with `FileReader` and its asynchronous callback (script.js:236-237, 289), and the import input's reset (script.js:318-325).
- JSON text itself. `JSON.parse` and `JSON.stringify` are library calls; documents are modelled as parsed values. A stored map is taken to survive a stringify/parse round trip unchanged.
- Storage failures. `getEntries` throws on corrupt stored text (script.js:19), and `localStorage` can fail on quota; the model assumes the storage holds a valid map.
- Keys such as `__proto__` and the insertion order of object keys. Maps are unordered and every key is an ordinary member.
- `String(n)` above 10^21, where JavaScript switches to exponent notation. Integers are written in plain decimal for any size.
- `Date` values beyond ±8.64·10^15 ms from 1970 (about ±275,760 years), where `Date` yields NaN.
- Time zones and daylight saving time; all `Date` arithmetic is on whole days.
- The `preview-text` of a marked card, which shows the stored value as text.
- The styling in `updateWordCount` and its enabling of the save button (script.js:159-172). The save guard at script.js:191-194 is modelled.
- The insertion on Enter is modelled at the cursor. Replacing a selection is not modelled.
- Words.EnterKeepsLimit: the insertion point is an index between characters rather than a UTF-16 offset. A caret never sits inside a surrogate pair, and the lemma holds at every character boundary.
- DateKey.KeyOrderIsDateOrder: keys sort in date order only for the years 1000 to 9999. The year is not padded, so outside that range the order breaks; `KeyOrderOutsideFourDigitYears` gives the inputs. JavaScript compares UTF-16 code units; the keys are ASCII, so comparing characters is the same.
- The `addEventListener` and `oninput`/`onkeydown` wiring that attaches the handlers (script.js:38-41, 142, 145, 295, 305, 315-346); the bodies of the previous/next handlers are modelled by `PrevMonth` and `NextMonth`, and the Enter guard by `EnterSuppressed`. Also left out: initialisation, the close-modal handlers and the Escape key.
- Journal.CalendarApp.SaveNote: the refusal is stated on the count of the trimmed text, as the code computes it. `Words.CountWordsOfTrim` proves it equal to the count of the raw text.
- Journal.CalendarApp.RenderGrid: requires the displayed month to be in 0–11. The navigation methods preserve this invariant (`Valid`), and so does the constructor.
