/**
  The annotation session: the state the Streamlit script keeps between
  reruns (the loaded records, the cursor, and the ledger of annotations
  by `url_id`) together with the three annotators' output files, and the
  operations one button press or one edited note performs on it
  (app.py:176-189, 239-264, 287-306, 389-443).
 */
module Session {
  import opened Text
  import opened Json
  import opened Dicts
  import opened Store
  import opened Annotation

  /** What clicking a label button led to. */
  datatype LabelOutcome =
    | NotViewable   // the view of the current record raises before the label click is handled (see `Viewable`)
    | Advanced      // saved, and the cursor moved to the next record
    | Completed     // saved at the last record: everything is annotated
    | SaveFailed    // the file could not be written; the ledger in memory keeps the new entry

  /** What an edited note led to. */
  datatype NoteOutcome =
    | NoteNotViewable // the view raises before the note box exists
    | NoteUnchanged   // the record is not annotated, or the note equals the stored one
    | NoteSaved
    | NoteSaveFailed

  class AnnotationSession {
    /** `json.loads` / `json.dumps`. */
    const codec: Codec
    /** `st.session_state.data`. */
    var data: seq<Value>
    /** `st.session_state.current_index`. */
    var index: nat
    /** `st.session_state.existing_annotations`. */
    var ledger: Ledger
    /** The output file of each annotator, `annotated_by_<name>.jsonl`. */
    var files: map<Annotator, FileState>

    /**
      The cursor points into the records (or is 0 when there are none), the
      ledger lists each key once in insertion order with every entry filed
      under its own `url_id`, and every annotator has an output file state.
     */
    ghost predicate Valid()
      reads this
    {
      && ValidCodec(codec)
      && Dicts.Valid(ledger) && KeysConsistent(ledger)
      && (|data| == 0 ==> index == 0)
      && (|data| > 0 ==> index < |data|)
      && (forall a: Annotator :: a in files)
    }

    /** A fresh session: nothing loaded yet. */
    constructor (codec: Codec, files: map<Annotator, FileState>)
      requires ValidCodec(codec)
      requires forall a: Annotator :: a in files
      ensures Valid()
      ensures this.codec == codec && this.files == files
      ensures data == [] && index == 0 && ledger == Empty()
    {
      this.codec := codec;
      this.files := files;
      data := [];
      index := 0;
      ledger := Empty();
    }

    /**
      The load button. When the input file does not exist nothing changes;
      otherwise the records are read from it, the cursor goes back to the
      first record, and the ledger is read from the annotator's output file.
      `badLines` are the input lines reported as unparsable; `ledgerError`
      says whether reading the output file reported an error.
     */
    method LoadData(input: FileState, annotator: Annotator) returns (badLines: seq<nat>, ledgerError: bool)
      requires Valid()
      modifies this`data, this`index, this`ledger
      ensures Valid()
      ensures input.Missing? ==>
                data == old(data) && index == old(index) && ledger == old(ledger) && badLines == [] && !ledgerError
      ensures input.Readable? ==>
                RecordLoad(data, badLines) == JsonlOf(codec, StripEach(SplitLines(input.text)))
      ensures input.Unreadable? ==> data == [] && badLines == []
      ensures !input.Missing? ==> index == 0
      ensures !input.Missing? && files[annotator].Readable? ==>
                var r := AnnotationsOf(codec, StripEach(SplitLines(files[annotator].text)));
                ledger == r.ledger && ledgerError == r.stoppedAt.Some?
      ensures !input.Missing? && !files[annotator].Readable? ==>
                ledger == Empty() && ledgerError == files[annotator].Unreadable?
    {
      badLines, ledgerError := [], false;
      if !input.Missing? {
        data, badLines := LoadJsonlFile(codec, input);
        index := 0;
        ledger, ledgerError := LoadExistingAnnotations(codec, files[annotator]);
      }
    }

    /** The "previous" button: one record back, unless at the first. */
    method Previous()
      requires Valid() && |data| > 0
      modifies this`index
      ensures Valid()
      ensures old(index) > 0 ==> index == old(index) - 1
      ensures old(index) == 0 ==> index == 0
    {
      if index > 0 {
        index := index - 1;
      }
    }

    /** The "next" button: one record on, unless at the last. */
    method Next()
      requires Valid() && |data| > 0
      modifies this`index
      ensures Valid()
      ensures old(index) < |data| - 1 ==> index == old(index) + 1
      ensures old(index) == |data| - 1 ==> index == old(index)
    {
      if index < |data| - 1 {
        index := index + 1;
      }
    }

    /** The jump button, with the 1-based position the number input allows. */
    method JumpTo(n: nat)
      requires Valid() && 1 <= n <= |data|
      modifies this`index
      ensures Valid()
      ensures index == n - 1
    {
      index := n - 1;
    }

    /**
      Writing the whole ledger to the annotator's file. On success the file
      holds the saved text; on failure its contents are unknown, since the
      write may have truncated it.
     */
    method Persist(annotator: Annotator, persistOk: bool)
      requires Valid()
      modifies this`files
      ensures Valid()
      ensures persistOk ==> files == old(files)[annotator := Readable(LedgerText(codec, ledger))]
      ensures persistOk ==> AnnotationsOf(codec, StripEach(SplitLines(files[annotator].text))) == LedgerLoad(ledger, None)
      ensures forall a :: a != annotator ==> files[a] == old(files)[a]
    {
      var text := SaveAnnotationsToFile(codec, ledger);
      var after: FileState := *;
      if persistOk {
        after := Readable(text);
        LedgerRoundTrip(codec, ledger);
      }
      files := files[annotator := after];
    }

    /**
      Clicking the label `quality` with `note` in the note box: the entry
      built from the current record is stored under the record's key, leaving
      every other key alone, and the ledger is saved. Only a successful save
      moves the cursor, and only when a next record exists. `imageDirSet`
      says whether the image directory is non-empty (app.py:155-163).
     */
    method AssignLabel(quality: Quality, annotator: Annotator, note: string, imageDirSet: bool, persistOk: bool)
      returns (outcome: LabelOutcome)
      requires Valid() && |data| > 0
      modifies this`ledger, this`index, this`files
      ensures Valid()
      ensures !Viewable(data[old(index)], imageDirSet) ==>
                outcome == NotViewable && ledger == old(ledger) && index == old(index) && files == old(files)
      ensures Viewable(data[old(index)], imageDirSet) ==>
                var record := data[old(index)].fields;
                var k := KeyOf(record).value;
                && ledger == Insert(old(ledger), k, BuildEntry(record, quality, annotator, note))
                && CurrentScore(ledger, k) == Str(quality.Text())
                && (persistOk ==> files == old(files)[annotator := Readable(LedgerText(codec, ledger))])
                && (forall a :: a != annotator ==> files[a] == old(files)[a])
                && (persistOk && old(index) < |data| - 1 ==> outcome == Advanced && index == old(index) + 1)
                && (persistOk && old(index) == |data| - 1 ==> outcome == Completed && index == old(index))
                && (!persistOk ==> outcome == SaveFailed && index == old(index))
      ensures old(ledger).entries.Keys <= ledger.entries.Keys
    {
      var current := data[index];
      if !Viewable(current, imageDirSet) {
        return NotViewable;
      }
      var record := current.fields;
      var k := KeyOf(record).value;
      var entry := BuildEntry(record, quality, annotator, note);
      BuildEntryKeepsKey(record, quality, annotator, note);
      ledger := Insert(ledger, k, entry);
      Persist(annotator, persistOk);
      if !persistOk {
        outcome := SaveFailed;
      } else if index < |data| - 1 {
        index := index + 1;
        outcome := Advanced;
      } else {
        outcome := Completed;
      }
    }

    /**
      Editing only the note of an annotated record: when the note differs
      from the stored one, the stored entry gets the new note (possibly
      empty) and nothing else, and the ledger is saved; otherwise nothing
      changes. The cursor never moves. `imageDirSet` is as for `AssignLabel`.
     */
    method UpdateNote(note: string, annotator: Annotator, imageDirSet: bool, persistOk: bool) returns (outcome: NoteOutcome)
      requires Valid() && |data| > 0
      modifies this`ledger, this`files
      ensures Valid()
      ensures !Viewable(data[index], imageDirSet) ==> outcome == NoteNotViewable && ledger == old(ledger) && files == old(files)
      ensures Viewable(data[index], imageDirSet) ==>
                var k := KeyOf(data[index].fields).value;
                if k in old(ledger).entries && Str(note) != ExistingNote(old(ledger), k) then
                  && ledger == Insert(old(ledger), k, WithNote(old(ledger).entries[k], note))
                  && ledger.order == old(ledger).order
                  && CurrentScore(ledger, k) == CurrentScore(old(ledger), k)
                  && ExistingNote(ledger, k) == Str(note)
                  && (persistOk ==> files == old(files)[annotator := Readable(LedgerText(codec, ledger))])
                  && (forall a :: a != annotator ==> files[a] == old(files)[a])
                  && outcome == (if persistOk then NoteSaved else NoteSaveFailed)
                else
                  outcome == NoteUnchanged && ledger == old(ledger) && files == old(files)
      ensures old(ledger).entries.Keys == ledger.entries.Keys
    {
      var current := data[index];
      if !Viewable(current, imageDirSet) {
        return NoteNotViewable;
      }
      var k := KeyOf(current.fields).value;
      var isAnnotated := k in ledger.entries;
      var existingNote := ExistingNote(ledger, k);
      if Str(note) != existingNote && isAnnotated {
        var entry := WithNote(ledger.entries[k], note);
        WithNoteKeepsLabelAndKey(ledger.entries[k], note);
        ledger := Insert(ledger, k, entry);
        Persist(annotator, persistOk);
        outcome := if persistOk then NoteSaved else NoteSaveFailed;
      } else {
        outcome := NoteUnchanged;
      }
    }
  }
}
