# Quality-score annotation tool: the annotation session

`app.py` is a Streamlit page where an annotator walks through the records of
a JSONL file, labels each one P0, P1 or P2 (with an optional note), and has
every label saved at once to a per-annotator JSONL file
(`annotated_by_<name>.jsonl`). Under the page code sits a small sequential
state machine, and that is what this project models and proves things about:

- the loaded records (`st.session_state.data`);
- the cursor (`current_index`);
- the ledger of annotations (`existing_annotations`), a dict from `url_id` to entry;
- the three output files.

Files:

- `text.dfy` (module `Text`): Python's `str.strip()` with the whitespace set
  of `str.isspace()`, and how a text file splits into lines.
- `json.dfy` (module `Json`): JSON values, `dict.get`, and which values can be
  dict keys and which ones collide as keys (`True == 1`).
- `json.dfy` also holds an abstract codec. `json.loads` and `json.dumps` are
  two function values. The only assumed fact is `ValidCodec`: a dumped object
  is one line with no whitespace (as `str.isspace()` defines it) at its ends, and loading that line gives the
  object back.
- `dicts.dfy` (module `Dicts`): Python dicts with insertion order.
  Assignment to an existing key keeps its place; a new key goes last.
- `store.dfy` (module `Store`): `load_jsonl_file`,
  `load_existing_annotations` and `save_annotations_to_file`. Each is a
  method with the source's loop. The two loads are proved equal to a
  function over the file's stripped lines. The save is proved equal to
  `LedgerText`, the ledger's entries dumped one per line in insertion
  order. Not-found and read errors are a `FileState` parameter.
  The file is modelled after newline translation.
- `annotation.dfy` (module `Annotation`): the labels and annotators, the
  entry a label click builds, the note-only edit, the button labels and the
  sidebar tally.
- `session.dfy` (module `Session`): class `AnnotationSession`, whose fields
  are the session state plus the output files. It has one method per button
  press (load, previous, next, jump, label). A further method covers the
  note-only edit the page performs when the note changed and no label was
  clicked.

Whether a file write succeeds is a `persistOk` parameter. After a failed
write, the file's contents are arbitrary.

Annotation keys follow Python's dict semantics for `data.get('url_id')`:

- a missing `url_id` is the key `None`;
- `true`/`1` and `false`/`0` are the same key;
- a list or object as `url_id` cannot be a key, and using it raises, which
  the model treats as a failed read or an unusable record.

## Model

| member | source | states |
|---|---|---|
| Text.Strip | app.py:36 | the stripped line is empty exactly when the line is all whitespace; otherwise it starts and ends with a non-whitespace character |
| Text.StripKeepsMiddle | app.py:36 | stripping keeps one contiguous piece of the line and removes only whitespace around it |
| Text.SplitLinesJoin | app.py:35 | the lines a file iterator yields, joined, are the file's text |
| Text.SplitLinesAreLines | app.py:35 | every yielded line but the last ends in a newline, and no line holds a newline before its end |
| Text.SplitJoin | app.py:91-93 | splitting text made of newline-terminated lines gives exactly those lines back |
| Json.HashKeyMatchesEquality | app.py:61 | two hashable values share a dict key exactly when Python's `==` holds between them |
| Json.FalsyValues | app.py:452 | a score is falsy exactly when it is `None`, `False`, zero, or an empty string, list or dict |
| Json.HashKey | app.py:61 | a value has a dict key exactly when it is hashable: only lists and objects have none |
| Json.KeyOf | app.py:290 | a record without `url_id` is filed under the key `None`; a record has a key exactly when its `url_id` is absent or hashable, and then the key is that of its `url_id` |
| Dicts.Insert | app.py:61 | `d[k] = v` stores `v` under `k` and leaves other keys alone; an existing key keeps its place, a new key is appended |
| Dicts.ValuesInsert | app.py:450 | after `d[k] = v`, `.values()` of a new key ends with `v`, and of an existing key has `v` in that key's place with every other value unchanged |
| Dicts.SizeIsOrderLength | app.py:455 | `len(d)` is the number of keys in iteration order |
| Dicts.InsertGrowsByAtMostOne | app.py:417 | an assignment removes no key and adds at most one |
| Dicts.InsertIdempotent | app.py:417 | storing the same value twice under a key is storing it once |
| Store.JsonlOf | app.py:35-41 | the records loaded and the lines reported together number at most the lines read |
| Store.LoadJsonlFile | app.py:30-48 | the records read are the function `JsonlOf` of the stripped lines; a missing or unreadable file gives no records and no line reports |
| Store.JsonlLoadsParsedValues | app.py:35-42 | the records are, in line order, the parse results of the non-blank lines that parse |
| Store.JsonlReportsOnlyBadLines | app.py:35-41 | every reported line number is 1-based and names a non-blank line that fails to parse |
| Store.JsonlAccountsForEveryLine | app.py:35-41 | each non-blank line is either loaded or reported |
| Store.JsonlSkipsBadLine | app.py:38-41 | a bad line adds nothing, is reported, and lines after it are still loaded |
| Store.JsonlAppend | app.py:35-41 | loading two consecutive pieces of a file is loading the file, with the second piece's line numbers shifted |
| Store.ReadLedgerLine | app.py:57-61 | a stripped line is blank, an entry whose `url_id` is its key, or bad (decode error, non-object, unhashable `url_id`) |
| Store.AnnotationsOf | app.py:55-61 | the line that stopped a read is one of the lines |
| Store.AnnotationsStep | app.py:57-61 | a stopped read stays stopped, and a read stops only at the line being read |
| Store.AnnotationsWellFormed | app.py:53-61 | the loaded ledger lists each key once, and each entry is filed under its own `url_id` |
| Store.AnnotationsStopAtBadLine | app.py:55-63 | a read stops only at a bad line, holding what the lines before it gave |
| Store.AnnotationsStopAtFirstBadLine | app.py:55-63 | at the first bad line the entries before it are kept and every later line is dropped |
| Store.AnnotationsIgnoreLinesAfterStop | app.py:55-63 | once stopped, later lines change nothing |
| Store.AnnotationsLastLineWins | app.py:61 | when no line stopped the read, each key holds the entry of its last line |
| Store.AnnotationsKeysComeFromLines | app.py:56-61 | every loaded key and entry comes from some entry line |
| Store.LoadExistingAnnotations | app.py:50-64 | a missing file gives an empty ledger and no error; an unreadable one gives an empty ledger and an error; otherwise the ledger is `AnnotationsOf` of the stripped lines, with an error exactly when a bad line stopped it |
| Store.ReadLedgerLines | app.py:55-61 | the read loop computes `AnnotationsOf` of the stripped lines |
| Store.SaveAnnotationsToFile | app.py:88-97 | the text written is the ledger's lines concatenated |
| Store.SavedLines | app.py:91-93 | the saved file splits back into exactly one line per entry |
| Store.StrippedSavedLines | app.py:93 | stripping a saved line leaves that entry's dump |
| Store.RoundTripPrefix | app.py:55-61 | reading back the first `i` saved lines gives the first `i` entries in order |
| Store.LedgerRoundTrip | app.py:50-64 | loading a ledger saved by `save_annotations_to_file` (app.py:88-97) whose entries lie under their own `url_id` gives the same ledger, in the same order, with no error |
| Annotation.QualityTextInjective | app.py:16-20 | the three label texts are distinct |
| Annotation.OutputFilesDistinct | app.py:172 | each annotator has a file of their own |
| Annotation.OutputFileName | app.py:172 | the file name is the annotator's name between `annotated_by_` and `.jsonl` |
| Annotation.BuildEntry | app.py:405-412 | the entry is the record without `ori_html`, with the label and annotator name, and with the typed note when it is non-empty, otherwise the record's own note if it has one; every other field is the record's |
| Annotation.BuildEntryKeepsKey | app.py:405-417 | the entry keeps the record's `url_id`, so it is filed under its own key |
| Annotation.WithNote | app.py:436-437 | a note-only edit sets the note, possibly empty, and changes no other field |
| Annotation.WithNoteKeepsLabelAndKey | app.py:436-438 | after a note edit the label and `url_id` are unchanged and the note reads back, each read with `.get(..., '')` as at app.py:306 and app.py:392 |
| Annotation.BuildEntryReadsBack | app.py:405-412 | reading a built entry with `.get(..., '')` gives the clicked label, and the typed note, or the record's own note when none was typed |
| Annotation.Viewable | app.py:287-347 | the page gets past the `.get('url_id')` call, the membership test and the image display exactly when the record is an object whose `url_id` is absent or hashable and, when an image directory is set, whose `ori_pic` is a string or falsy |
| Annotation.CurrentScore | app.py:303-306 | an unannotated record shows an empty label |
| Annotation.ExistingNote | app.py:390-392 | an unannotated record shows an empty note |
| Annotation.ButtonMarkedIffStored | app.py:309-330 | a button is marked if and only if the stored value is its label |
| Annotation.AtMostOneButtonMarked | app.py:309-330 | two different buttons are never marked together |
| Annotation.TallyOf | app.py:449-453 | the tally is a well-formed dict with at most one key per entry visited |
| Annotation.TallyCountsEachScore | app.py:449-453 | the tally holds a label exactly when some entry carries it, and then holds the number of such entries |
| Annotation.TallyTotal | app.py:449-453 | the counts add up to the number of entries with a truthy label, at most the number of entries |
| Annotation.Tally | app.py:449-453 | the loop computes `TallyOf` of the ledger's entries in order |
| Annotation.TallyAtMostLedgerSize | app.py:449-455 | the counts add up to at most the ledger's size |
| Session.AnnotationSession.constructor | app.py:239-240 | a fresh session has no records, cursor 0 and an empty ledger |
| Session.AnnotationSession.LoadData | app.py:176-189 | a missing input changes nothing; otherwise the records are those read, the cursor is 0 and the ledger is the annotator's file read back, and the session stays valid |
| Session.AnnotationSession.Previous | app.py:251-253 | the cursor goes back one exactly when it is past the first record, and stays in range |
| Session.AnnotationSession.Next | app.py:256-258 | the cursor goes on one exactly when it is before the last record, and stays in range |
| Session.AnnotationSession.JumpTo | app.py:261-264 | position `n` within the input's bounds sets the cursor to `n - 1` |
| Session.AnnotationSession.Persist | app.py:420 | a successful save (here and at app.py:440) leaves the file holding the ledger's text, which reads back to the ledger; other annotators' files are untouched |
| Session.AnnotationSession.AssignLabel | app.py:403-432 | the built entry is stored under the record's key and nothing else changes in the ledger; the cursor moves only after a successful save before the last record; a failed save keeps the new entry in memory |
| Session.AnnotationSession.UpdateNote | app.py:435-443 | only an annotated record whose note differs is edited, and then only its note; otherwise nothing changes; the cursor never moves |

## Left out

- Streamlit rendering is not modelled: widgets, columns, messages, balloons,
  `st.rerun()`. Each button press is one method call. The messages are
  covered only as the `badLines` and error results.
- Not modelled: what `display_image` shows (app.py:66-86; its one raise is
  covered below), file-source selection, the
  upload to a temporary file and directory globbing (app.py:106-163). These
  are image and file-system plumbing. The input file is a `FileState`
  parameter.
- The progress bar and completion percentages (app.py:243-245, 460-465) are
  left out because they are floating point.
- The download button's string (app.py:266-280) is left out: it is a UI
  export that repeats the save format.
- The real JSON grammar is not modelled: `json.loads`/`json.dumps` are an
  abstract `Codec`. JSON numbers are integers only.
- UTF-8 decoding is not modelled: a file is `Readable` with its whole text
  or `Unreadable`. A file that fails to decode part-way through can only be
  `Unreadable`, and the results then differ from the source in two cases.
  Which lines come before the error depends on the file layer's buffering.
  - The ledger file (app.py:55-64): the source keeps the entries read
    before the error. The model gives an empty ledger.
  - The input file (app.py:35-48): the records are `[]` in both. But the
    source has already reported the bad lines it met before the error
    (app.py:41), while the model reports none (`badLines == []`).
- `Store.LoadJsonlFile` treats every exception `json.loads` raises as a
  decode error. The source catches only `JSONDecodeError` per line
  (app.py:40). Another exception from `json.loads`, such as a
  `RecursionError` on deeply nested JSON, falls through to app.py:46-48, and
  the source returns `[]` for the whole file. The model skips just that line
  and reports it.
- Newline translation is not modelled: a file's text is taken after it, so
  '\n' is the only line end.
- `Session.AnnotationSession.JumpTo` takes `1 <= n <= |data|` as a
  precondition. The source does not check the number at app.py:263: only the
  number input's bounds at app.py:261 keep it in range. A "do nothing
  outside the range" branch would not be the code.
- Session: `st.session_state.annotations = {}` (app.py:180) is never read, so
  it has no field.
- Session: the key `existing_annotations` is never missing once data is
  loaded. So the fallbacks at app.py:291 and app.py:415-416 are not modelled.
- Session: the page raises before a label click or note edit is handled in
  three cases:
  - the record is not an object (app.py:290);
  - its `url_id` is a list or object (app.py:303);
  - an image directory is set and its `ori_pic` is truthy but not a string.
    `display_image` then raises at app.py:69, after the label buttons are
    drawn but before the note box and the click handler.

  The load, previous, next and jump buttons come before all of these, so
  those methods do not depend on them. The label and note methods report
  these cases as `NotViewable` and change nothing. Within `display_image`,
  only this raise is modelled: any other call is assumed to return.
- Session: the page can show records only when some are loaded (app.py:192),
  so the navigation, label and note methods require a non-empty `data`.
- Streamlit's handling of a stored note that is not a string, when it is put
  into the text area, is not modelled. The comparison at app.py:435 is
  modelled on JSON values.
- `Annotation.Tally` requires every non-empty score to be hashable. With a
  list or object as a score, the line at app.py:453 raises and the sidebar
  stops.
- `data/jsonl/1.py` is not part of this model. It is a one-off script, and
  its only logic (dropping `ori_html`) is the step already modelled in
  `Annotation.BuildEntry`.
- Not modelled: the input file being deleted between the existence check
  and the read (app.py:177-178).
