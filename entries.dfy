/** The stored entries and the pure parts of the operations on them: the map
    update of `saveNote`, the export envelope of `exportEntries`, and the
    classification and merge of `importEntries`. */
module Entries {
  import opened Wrappers
  import opened Json
  import opened Words

  /** Date keys mapped to the stored values. Notes saved in the editor are
      strings; an imported file may bring any JSON value. */
  type EntryMap = map<string, Json>

  /** The single member of the export envelope. */
  const EnvelopeField := "happyCalendarEntries"

  // ---------------------------------------------------------------------
  // saveNote

  /** `if (text) entries[entryKey] = text; else delete entries[entryKey];` */
  function StoreOrDelete(entries: EntryMap, key: string, t: string): EntryMap {
    if t != "" then entries[key := JStr(t)] else entries - {key}
  }

  lemma StoreOrDeleteOutcome(entries: EntryMap, key: string, t: string)
    ensures var m := StoreOrDelete(entries, key, t);
      && (key in m <==> t != "")
      && (key in m ==> m[key] == JStr(t))
      && (forall k :: k != key ==> (k in m <==> k in entries))
      && (forall k :: k != key && k in m ==> m[k] == entries[k])
  {
  }

  /** An accepted save leaves the key holding the trimmed text when there is
      any and absent when the text is blank, and every other key as it was. */
  lemma SaveNoteOutcome(entries: EntryMap, key: string, text: string)
    ensures var m := StoreOrDelete(entries, key, Trim(text));
      && (AllSpace(text) ==> key !in m)
      && (!AllSpace(text) ==> key in m && m[key] == JStr(Trim(text)))
      && (forall k :: k != key ==> (k in m <==> k in entries))
      && (forall k :: k != key && k in m ==> m[k] == entries[k])
  {
    TrimEmptyIffBlank(text);
    StoreOrDeleteOutcome(entries, key, Trim(text));
  }

  /** A note as the editor saves it: non-empty, trimmed, within the limit. */
  predicate IsNote(v: Json) {
    v.JStr? && v.s != "" && Trim(v.s) == v.s && CountWords(v.s) <= MaxWords
  }

  predicate NotesOnly(entries: EntryMap) {
    forall k :: k in entries ==> IsNote(entries[k])
  }

  /** Saving keeps a store of notes a store of notes: no key is ever left with
      an empty or over-long note. */
  lemma SaveKeepsNotesOnly(entries: EntryMap, key: string, text: string)
    requires NotesOnly(entries) && CountWords(Trim(text)) <= MaxWords
    ensures NotesOnly(StoreOrDelete(entries, key, Trim(text)))
  {
    TrimIdempotent(text);
    StoreOrDeleteOutcome(entries, key, Trim(text));
  }

  /** `entries[entryKey] || ''`: the text the editor opens with. */
  function EditorPrefill(entries: EntryMap, key: string): Json {
    if key in entries && Truthy(entries[key]) then entries[key] else JStr("")
  }

  /** Reopening the editor after a save shows the saved, trimmed text. */
  lemma SaveThenReopen(entries: EntryMap, key: string, text: string)
    ensures EditorPrefill(StoreOrDelete(entries, key, Trim(text)), key) == JStr(Trim(text))
  {
    StoreOrDeleteOutcome(entries, key, Trim(text));
  }

  // ---------------------------------------------------------------------
  // exportEntries and importEntries

  /** `{happyCalendarEntries: entries}` */
  function ExportDocument(entries: EntryMap): Json {
    JObj(map[EnvelopeField := JObj(entries)])
  }

  /** The alerts of `importEntries`: the read error of the `catch` clause, the
      document that is not an object, and the envelope that is not one. */
  datatype ImportError = ReadFailure | InvalidFileFormat | InvalidEntriesFormat

  /** The entries `importEntries` takes from the result of `JSON.parse`, None
      when parsing threw. A document that is not an object is refused; `null`
      passes the `typeof` test and then throws when its envelope member is
      read. A truthy envelope member whose `typeof` is 'object' is used, and
      refused when it is an array; otherwise the whole document is the entry
      map of the older format. */
  function EntriesToImport(parsed: Option<Json>): Result<EntryMap, ImportError> {
    match parsed
    case None => Failure(ReadFailure)
    case Some(doc) =>
      if !TypeofObject(doc) || IsArray(doc) then Failure(InvalidFileFormat)
      else if doc.JNull? then Failure(ReadFailure)
      else
        var envelope := if EnvelopeField in doc.fields then doc.fields[EnvelopeField] else JNull;
        var candidate := if Truthy(envelope) && TypeofObject(envelope) then envelope else doc;
        if !TypeofObject(candidate) || IsArray(candidate) then Failure(InvalidEntriesFormat)
        else Success(candidate.fields)
  }

  /** Documents that are not objects: a parse failure and `null` end in the
      read error, every other non-object in the file-format error. */
  lemma ImportRejectsNonObjects(doc: Json)
    ensures EntriesToImport(None) == Failure(ReadFailure)
    ensures doc.JNull? ==> EntriesToImport(Some(doc)) == Failure(ReadFailure)
    ensures (doc.JBool? || doc.JNum? || doc.JStr? || doc.JArr?) ==>
      EntriesToImport(Some(doc)) == Failure(InvalidFileFormat)
  {
  }

  /** An object document: an object envelope gives its contents, an array
      envelope is refused, and any other document is the entry map itself. */
  lemma ImportOfObject(fields: map<string, Json>)
    ensures EntriesToImport(Some(JObj(fields))) ==
      if EnvelopeField in fields && fields[EnvelopeField].JObj? then Success(fields[EnvelopeField].fields)
      else if EnvelopeField in fields && fields[EnvelopeField].JArr? then Failure(InvalidEntriesFormat)
      else Success(fields)
  {
  }

  /** Importing an exported document gives back exactly the exported entries. */
  lemma ExportImportRoundTrip(entries: EntryMap)
    ensures EntriesToImport(Some(ExportDocument(entries))) == Success(entries)
  {
  }

  /** The store after a successful import: with no current entries the
      incoming ones are stored; otherwise the user's choice replaces them
      (`confirm` answered OK) or merges them as `{...current, ...incoming}`. */
  function ResolveImport(current: EntryMap, incoming: EntryMap, replace: bool): EntryMap {
    if |current| == 0 then incoming
    else if replace then incoming
    else current + incoming
  }

  /** Replacing, or importing into an empty store, yields the incoming
      entries; merging yields the union of the keys, the incoming value
      winning where both have one. */
  lemma ResolveImportOutcome(current: EntryMap, incoming: EntryMap, replace: bool)
    ensures |current| == 0 ==> ResolveImport(current, incoming, replace) == incoming
    ensures replace ==> ResolveImport(current, incoming, replace) == incoming
    ensures !replace ==>
      var r := ResolveImport(current, incoming, replace);
      && r.Keys == current.Keys + incoming.Keys
      && (forall k :: k in incoming ==> r[k] == incoming[k])
      && (forall k :: k in current && k !in incoming ==> r[k] == current[k])
  {
    if |current| == 0 {
      assert current == map[];
      assert current + incoming == incoming;
    }
  }

  /** Merging the same file a second time changes nothing. */
  lemma MergeIdempotent(current: EntryMap, incoming: EntryMap)
    ensures var once := ResolveImport(current, incoming, false);
      ResolveImport(once, incoming, false) == once
  {
    var once := ResolveImport(current, incoming, false);
    ResolveImportOutcome(current, incoming, false);
    ResolveImportOutcome(once, incoming, false);
  }

  /** Importing the store's own export changes nothing, whatever the choice. */
  lemma ReimportOwnExport(entries: EntryMap, replace: bool)
    ensures EntriesToImport(Some(ExportDocument(entries))).Success?
    ensures ResolveImport(entries, EntriesToImport(Some(ExportDocument(entries))).value, replace) == entries
  {
    ExportImportRoundTrip(entries);
    ResolveImportOutcome(entries, entries, replace);
  }
}
