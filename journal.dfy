/** The journal application: the displayed month and the stored entries as
    the state of one object, and the handlers that change them — saving a
    note, importing a file, moving between months — together with the
    month view that is laid out from that state. The browser's storage is
    the field `stored`; the user's answer to the replace-or-merge question
    and the parsed file are parameters. */
module Journal {
  import opened Wrappers
  import opened Json
  import opened Words
  import opened DateKey
  import opened Gregorian
  import opened Navigation
  import opened Entries

  /** A cell of the month view: an empty cell before the 1st, or the card of
      a day, marked when that day has an entry. */
  datatype Cell = Blank | Card(day: int, hasEntry: bool)

  /** `if (entry)`: a day is marked when its stored value is truthy. */
  predicate HasEntry(entries: EntryMap, key: string) {
    key in entries && Truthy(entries[key])
  }

  /** Whether `saveNote` stored the note or refused it with the word-limit alert. */
  datatype SaveResult = Saved | OverLimit

  /** Whether `importEntries` stored the file or ended in one of its alerts. */
  datatype ImportOutcome = Imported | Rejected(error: ImportError)

  /** A saved note marks its day exactly when the text is not blank. */
  lemma SavedNoteMarksCard(entries: EntryMap, key: string, text: string)
    ensures !AllSpace(text) ==> HasEntry(StoreOrDelete(entries, key, Trim(text)), key)
    ensures AllSpace(text) ==> !HasEntry(StoreOrDelete(entries, key, Trim(text)), key)
  {
    SaveNoteOutcome(entries, key, text);
  }

  /** The cells of a month view that starts on weekday `firstDay` and has
      `days` days: `firstDay` empty cells, then the card of every day of the
      month in order, each marked when its key holds a truthy value. */
  predicate IsGrid(cells: seq<Cell>, entries: EntryMap, year: int, month: int, firstDay: nat, days: nat) {
    && |cells| == firstDay + days
    && (forall j :: 0 <= j < firstDay ==> cells[j] == Blank)
    && (forall j :: firstDay <= j < |cells| ==>
          cells[j] == Card(j - firstDay + 1, HasEntry(entries, EntryKey(year, month, j - firstDay + 1))))
  }

  /** The cells `renderCalendar` appends after the day labels for `month` of
      `year`, with the weekday of the 1st and the length of the month that
      the `Date` object gives. */
  predicate IsMonthGrid(cells: seq<Cell>, entries: EntryMap, year: int, month: int)
    requires 0 <= month <= 11
  {
    DaysInMonthRange(year, month);
    IsGrid(cells, entries, year, month, FirstWeekday(year, month), DaysInMonth(year, month))
  }

  /** The two loops of `renderCalendar`: `firstDay` empty cells, then one
      card per day, marked when the day's entry is truthy. */
  method LayOutCells(entries: EntryMap, year: int, month: int, firstDay: nat, daysInMonth: nat)
    returns (cells: seq<Cell>)
    ensures IsGrid(cells, entries, year, month, firstDay, daysInMonth)
  {
    cells := [];
    var i := 0;
    while i < firstDay
      invariant 0 <= i <= firstDay
      invariant |cells| == i
      invariant forall j :: 0 <= j < i ==> cells[j] == Blank
    {
      cells := cells + [Blank];
      i := i + 1;
    }
    var day := 1;
    while day <= daysInMonth
      invariant 1 <= day <= daysInMonth + 1
      invariant |cells| == firstDay + day - 1
      invariant forall j :: 0 <= j < firstDay ==> cells[j] == Blank
      invariant forall j :: firstDay <= j < |cells| ==>
        cells[j] == Card(j - firstDay + 1, HasEntry(entries, EntryKey(year, month, j - firstDay + 1)))
    {
      var entryKey := EntryKey(year, month, day);
      var entry := if entryKey in entries then entries[entryKey] else JNull;
      cells := cells + [Card(day, Truthy(entry))];
      day := day + 1;
    }
  }

  class CalendarApp {
    /** The displayed year and 0-based month. */
    var currentYear: int
    var currentMonth: int
    /** The entry map held in the browser's storage; empty when nothing is stored. */
    var stored: EntryMap

    /** The displayed month is a month of the year. */
    ghost predicate Valid()
      reads this
    {
      0 <= currentMonth <= 11
    }

    /** The application starts on the month of the current date, which the
        browser's clock supplies, and with whatever the storage holds. */
    constructor (year: int, month: int, saved: EntryMap)
      requires 0 <= month <= 11
      ensures Valid()
      ensures currentYear == year && currentMonth == month && stored == saved
    {
      currentYear := year;
      currentMonth := month;
      stored := saved;
    }

    /** `getEntries()`: the stored map. */
    method GetEntries() returns (entries: EntryMap)
      ensures entries == stored
    {
      entries := stored;
    }

    /** `saveEntries(entries)`: the stored map is replaced as a whole. */
    method SaveEntries(entries: EntryMap)
      modifies this`stored
      ensures stored == entries
    {
      stored := entries;
    }

    /** `saveNote(year, month, day)` with the editor holding `text`. A text of
        more than 15 words is refused and nothing changes; otherwise the
        trimmed text is stored under the day's key, or the key is deleted
        when the trimmed text is empty. The displayed month does not change. */
    method SaveNote(year: int, month: int, day: int, text: string) returns (result: SaveResult)
      modifies this`stored
      ensures result == (if CountWords(Trim(text)) > MaxWords then OverLimit else Saved)
      ensures stored == (if CountWords(Trim(text)) > MaxWords then old(stored)
                         else StoreOrDelete(old(stored), EntryKey(year, month, day), Trim(text)))
    {
      var t := Trim(text);
      var words := CountWords(t);
      if words > MaxWords {
        return OverLimit;
      }
      var entryKey := EntryKey(year, month, day);
      var entries := GetEntries();
      if t != "" {
        entries := entries[entryKey := JStr(t)];
      } else {
        entries := entries - {entryKey};
      }
      SaveEntries(entries);
      result := Saved;
    }

    /** `exportEntries()`: the document written to the download file, which
        imports back to exactly the stored entries. */
    method ExportEntries() returns (doc: Json)
      ensures doc.JObj? && doc.fields.Keys == {EnvelopeField} && doc.fields[EnvelopeField] == JObj(stored)
      ensures EntriesToImport(Some(doc)) == Success(stored)
    {
      var entries := GetEntries();
      doc := ExportDocument(entries);
      ExportImportRoundTrip(entries);
    }

    /** `importEntries` once the file is read and parsed (`parsed` is None
        when `JSON.parse` threw); `replace` is the answer to the
        replace-or-merge question, which is only asked when entries exist.
        A rejected file leaves the store as it was. */
    method ImportEntries(parsed: Option<Json>, replace: bool) returns (outcome: ImportOutcome)
      modifies this`stored
      ensures EntriesToImport(parsed).Failure? ==>
        outcome == Rejected(EntriesToImport(parsed).error) && stored == old(stored)
      ensures EntriesToImport(parsed).Success? ==>
        outcome == Imported && stored == ResolveImport(old(stored), EntriesToImport(parsed).value, replace)
    {
      var entriesToImport := EntriesToImport(parsed);
      if entriesToImport.Failure? {
        return Rejected(entriesToImport.error);
      }
      var incoming := entriesToImport.value;
      var currentEntries := GetEntries();
      var hasExistingEntries := |currentEntries| > 0;
      if hasExistingEntries {
        if replace {
          SaveEntries(incoming);
        } else {
          var mergedData := currentEntries + incoming;
          SaveEntries(mergedData);
        }
      } else {
        SaveEntries(incoming);
      }
      outcome := Imported;
    }

    /** The previous-month button: the month goes down by one, and below
        January to December of the year before. */
    method PrevMonth()
      modifies this`currentYear, this`currentMonth
      ensures (currentYear, currentMonth) == Prev(old(currentYear), old(currentMonth))
      ensures old(Valid()) ==> Valid()
    {
      currentMonth := currentMonth - 1;
      if currentMonth < 0 {
        currentMonth := 11;
        currentYear := currentYear - 1;
      }
    }

    /** The next-month button: the month goes up by one, and past December to
        January of the year after. */
    method NextMonth()
      modifies this`currentYear, this`currentMonth
      ensures (currentYear, currentMonth) == Next(old(currentYear), old(currentMonth))
      ensures old(Valid()) ==> Valid()
    {
      currentMonth := currentMonth + 1;
      if currentMonth > 11 {
        currentMonth := 0;
        currentYear := currentYear + 1;
      }
    }

    /** `renderCalendar`'s grid of the displayed month over the stored entries. */
    method RenderGrid() returns (cells: seq<Cell>)
      requires Valid()
      ensures IsMonthGrid(cells, stored, currentYear, currentMonth)
    {
      var firstDay := FirstWeekday(currentYear, currentMonth);
      var daysInMonth := DaysInMonth(currentYear, currentMonth);
      DaysInMonthRange(currentYear, currentMonth);
      var entries := GetEntries();
      cells := LayOutCells(entries, currentYear, currentMonth, firstDay, daysInMonth);
    }
  }
}
