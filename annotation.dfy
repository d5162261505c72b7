/**
  What one annotation is: the quality labels and annotators the tool offers,
  how an annotation entry is built from a record when a label is clicked
  (app.py:403-412), how a note-only edit changes an entry (app.py:435-437),
  what the label buttons show for the current record (app.py:301-313,
  389-392), and the per-label tally of the sidebar (app.py:446-453).
 */
module Annotation {
  import opened Json
  import opened Dicts
  import opened Store

  /** The three quality labels, in button order. */
  datatype Quality = P0 | P1 | P2 {
    function Text(): string {
      match this
      case P0 => "P0(质量很好)"
      case P1 => "P1(质量一般)"
      case P2 => "P2(质量差，信息量少)"
    }
  }

  /** The three annotators of the sidebar's selector. */
  datatype Annotator = Lpr | Zsh | Zxh {
    function Name(): string {
      match this
      case Lpr => "lpr"
      case Zsh => "zsh"
      case Zxh => "zxh"
    }
  }

  const OutputPrefix: string := "annotated_by_"
  const OutputSuffix: string := ".jsonl"

  /** Name of the annotator's output file inside the output directory: the annotator's name between a fixed prefix and suffix. */
  function OutputFileName(a: Annotator): (name: string)
    ensures |name| == |OutputPrefix| + |a.Name()| + |OutputSuffix|
    ensures name[..|OutputPrefix|] == OutputPrefix
    ensures name[|OutputPrefix|..|name| - |OutputSuffix|] == a.Name()
    ensures name[|name| - |OutputSuffix|..] == OutputSuffix
  {
    OutputPrefix + a.Name() + OutputSuffix
  }

  /** Distinct labels have distinct texts. */
  lemma QualityTextInjective(p: Quality, q: Quality)
    ensures p.Text() == q.Text() <==> p == q
  {
    if p != q {
      assert p.Text()[1] != q.Text()[1];
    }
  }

  /** Every annotator writes a file of their own. */
  lemma OutputFilesDistinct(a: Annotator, b: Annotator)
    ensures OutputFileName(a) == OutputFileName(b) <==> a == b
  {
    if a != b {
      assert OutputFileName(a)[|OutputPrefix| + 1] == a.Name()[1];
      assert OutputFileName(b)[|OutputPrefix| + 1] == b.Name()[1];
    }
  }

  const OriHtmlField: string := "ori_html"
  const ScoreField: string := "human_predicted_quality_score"
  const AnnotatorField: string := "annotator"
  const NoteField: string := "annotation_note"

  /** The fields a label assignment sets or removes; every other field is copied from the record. */
  predicate IsManagedField(f: string) {
    f == OriHtmlField || f == ScoreField || f == AnnotatorField || f == NoteField
  }

  /**
    The entry stored when `label` is clicked on `record`: the record
    without `ori_html`, with the label and the annotator's name, and with
    the note when one was typed. With no note, a note the record already
    carried is kept as it was.
   */
  function BuildEntry(record: Record, quality: Quality, annotator: Annotator, note: string): (e: Record)
    ensures OriHtmlField !in e
    ensures ScoreField in e && e[ScoreField] == Str(quality.Text())
    ensures AnnotatorField in e && e[AnnotatorField] == Str(annotator.Name())
    ensures |note| > 0 ==> NoteField in e && e[NoteField] == Str(note)
    ensures |note| == 0 ==> (NoteField in e <==> NoteField in record)
    ensures |note| == 0 && NoteField in record ==> e[NoteField] == record[NoteField]
    ensures forall f :: !IsManagedField(f) ==> (f in e <==> f in record)
    ensures forall f :: !IsManagedField(f) && f in record ==> e[f] == record[f]
  {
    var copy := record - {OriHtmlField};
    var labelled := copy[ScoreField := Str(quality.Text())][AnnotatorField := Str(annotator.Name())];
    if |note| > 0 then labelled[NoteField := Str(note)] else labelled
  }

  /** The built entry keeps the record's `url_id`, so it is filed back under the record's key. */
  lemma BuildEntryKeepsKey(record: Record, quality: Quality, annotator: Annotator, note: string)
    ensures KeyOf(BuildEntry(record, quality, annotator, note)) == KeyOf(record)
  {
    assert !IsManagedField(UrlIdField);
  }

  /** `entry.get('human_predicted_quality_score', '')`. */
  function ScoreOf(e: Record): (v: Value)
    ensures ScoreField in e ==> v == e[ScoreField]
    ensures ScoreField !in e ==> v == Str("")
  {
    Get(e, ScoreField, Str(""))
  }

  /** `entry.get('annotation_note', '')`. */
  function NoteOf(e: Record): (v: Value)
    ensures NoteField in e ==> v == e[NoteField]
    ensures NoteField !in e ==> v == Str("")
  {
    Get(e, NoteField, Str(""))
  }

  /**
    What the page reads back from a built entry: the clicked label, and the
    typed note, or the record's own note when none was typed.
   */
  lemma BuildEntryReadsBack(record: Record, quality: Quality, annotator: Annotator, note: string)
    ensures ScoreOf(BuildEntry(record, quality, annotator, note)) == Str(quality.Text())
    ensures |note| > 0 ==> NoteOf(BuildEntry(record, quality, annotator, note)) == Str(note)
    ensures |note| == 0 ==> NoteOf(BuildEntry(record, quality, annotator, note)) == NoteOf(record)
  {
  }

  /** The entry after a note-only edit: the note is replaced, even by the empty string, and nothing else changes. */
  function WithNote(e: Record, note: string): (r: Record)
    ensures NoteField in r && r[NoteField] == Str(note)
    ensures r.Keys == e.Keys + {NoteField}
    ensures forall f :: f in e && f != NoteField ==> r[f] == e[f]
  {
    e[NoteField := Str(note)]
  }

  /** A note-only edit keeps the label, the `url_id` and the note it was given. */
  lemma WithNoteKeepsLabelAndKey(e: Record, note: string)
    ensures ScoreOf(WithNote(e, note)) == ScoreOf(e)
    ensures KeyOf(WithNote(e, note)) == KeyOf(e)
    ensures NoteOf(WithNote(e, note)) == Str(note)
  {
    assert ScoreField != NoteField && UrlIdField != NoteField;
  }

  const OriPicField: string := "ori_pic"

  /**
    Whether showing the record's image raises: with an image directory set,
    a truthy `ori_pic` is handed to `display_image`, whose path test raises
    on anything but a string.
   */
  predicate ImageRaises(record: Record, imageDirSet: bool) {
    var path := Get(record, OriPicField, Str(""));
    imageDirSet && Truthy(path) && !path.Str?
  }

  /**
    A record whose view gets as far as the note box and the click handler:
    a JSON object (else `.get` raises at app.py:290) whose `url_id` is absent
    or hashable (else the membership test raises at app.py:303) and whose
    image, when one is shown, has a string path (else `display_image` raises
    at app.py:69). `imageDirSet` says whether the image directory is non-empty.
   */
  predicate Viewable(record: Value, imageDirSet: bool)
    ensures Viewable(record, imageDirSet) <==>
              && record.Obj?
              && (UrlIdField !in record.fields || Hashable(record.fields[UrlIdField]))
              && !(imageDirSet && OriPicField in record.fields && Truthy(record.fields[OriPicField])
                   && !record.fields[OriPicField].Str?)
  {
    record.Obj? && KeyOf(record.fields).Some? && !ImageRaises(record.fields, imageDirSet)
  }

  /** The stored label of the record filed under `k`, or "" when it has none (`current_annotation_value`). */
  function CurrentScore(ledger: Ledger, k: Key): (v: Value)
    ensures k !in ledger.entries ==> v == Str("")
  {
    if k in ledger.entries then ScoreOf(ledger.entries[k]) else Str("")
  }

  /** The stored note of the record filed under `k`, or "" when it has none (`existing_note`). */
  function ExistingNote(ledger: Ledger, k: Key): (v: Value)
    ensures k !in ledger.entries ==> v == Str("")
  {
    if k in ledger.entries then NoteOf(ledger.entries[k]) else Str("")
  }

  const Mark: string := "✅ "

  /** `get_button_style`: the label's text, marked when it is the stored label. */
  function ButtonLabel(option: Quality, current: Value): string {
    if current == Str(option.Text()) then Mark + option.Text() else option.Text()
  }

  /** Whether a button text carries the mark. */
  predicate IsMarked(s: string) {
    |s| >= |Mark| && s[..|Mark|] == Mark
  }

  /** No label text starts with the mark. */
  lemma LabelTextUnmarked(q: Quality)
    ensures !IsMarked(q.Text())
  {
    assert q.Text()[0] == 'P';
  }

  /**
    The buttons show the stored label: a button is marked exactly when its
    label is the stored value, so at most one button is marked, and none
    when nothing (or something that is not a label) is stored.
   */
  lemma ButtonMarkedIffStored(option: Quality, current: Value)
    ensures IsMarked(ButtonLabel(option, current)) <==> current == Str(option.Text())
  {
    LabelTextUnmarked(option);
    if current == Str(option.Text()) {
      assert (Mark + option.Text())[..|Mark|] == Mark;
    }
  }

  /** Two different buttons are never marked together. */
  lemma AtMostOneButtonMarked(p: Quality, q: Quality, current: Value)
    requires p != q
    ensures !(IsMarked(ButtonLabel(p, current)) && IsMarked(ButtonLabel(q, current)))
  {
    ButtonMarkedIffStored(p, current);
    ButtonMarkedIffStored(q, current);
    QualityTextInjective(p, q);
  }

  // ---------------------------------------------------------------------------
  // The per-label tally of the sidebar

  /** The tally counts a score when it is truthy; such a score must be usable as a dict key. */
  predicate ScoresHashable(entries: seq<Record>) {
    forall i :: 0 <= i < |entries| ==> Truthy(ScoreOf(entries[i])) ==> Hashable(ScoreOf(entries[i]))
  }

  /** `quality_counts` after visiting `entries` in order: each truthy score adds one to its key. */
  function TallyOf(entries: seq<Record>): (r: Dict<Key, nat>)
    requires ScoresHashable(entries)
    ensures Valid(r)
    ensures |r.order| <= |entries|
    decreases |entries|
  {
    if |entries| == 0 then Empty()
    else TallyStep(TallyOf(entries[..|entries| - 1]), entries[|entries| - 1])
  }

  /** What visiting one entry does to the counts: a truthy score adds one to its key. */
  function TallyStep(prev: Dict<Key, nat>, e: Record): (r: Dict<Key, nat>)
    requires Truthy(ScoreOf(e)) ==> Hashable(ScoreOf(e))
    ensures Valid(prev) ==> Valid(r)
    ensures |r.order| <= |prev.order| + 1
  {
    var q := ScoreOf(e);
    if Truthy(q) then
      var k := HashKey(q).value;
      Insert(prev, k, (if k in prev.entries then prev.entries[k] else 0) + 1)
    else prev
  }

  /** One turn of the tally loop, with the score it read and the counts it left, moves the tally on by one entry. */
  lemma TallyLoopStep(items: seq<Record>, i: nat, counts: Dict<Key, nat>, quality: Value, next: Dict<Key, nat>)
    requires ScoresHashable(items) && i < |items|
    requires ScoresHashable(items[..i]) && counts == TallyOf(items[..i])
    requires quality == Get(items[i], ScoreField, Str(""))
    requires Truthy(quality) ==> HashKey(quality).Some?
    requires Truthy(quality) ==>
               var k := HashKey(quality).value;
               next == Insert(counts, k, (if k in counts.entries then counts.entries[k] else 0) + 1)
    requires !Truthy(quality) ==> next == counts
    ensures ScoresHashable(items[..i + 1]) && next == TallyOf(items[..i + 1])
  {
    TallyOfSnoc(items, i);
  }

  /** The tally of one more entry is one more step. */
  lemma TallyOfSnoc(entries: seq<Record>, i: nat)
    requires ScoresHashable(entries) && i < |entries|
    ensures ScoresHashable(entries[..i]) && ScoresHashable(entries[..i + 1])
    ensures TallyOf(entries[..i + 1]) == TallyStep(TallyOf(entries[..i]), entries[i])
  {
    assert entries[..i + 1][..i] == entries[..i];
  }

  /** Independent count: how many of `entries` have a truthy score with key `k`. */
  function CountScore(entries: seq<Record>, k: Key): nat {
    if |entries| == 0 then 0
    else
      var q := ScoreOf(entries[|entries| - 1]);
      CountScore(entries[..|entries| - 1], k) + (if Truthy(q) && HashKey(q) == Some(k) then 1 else 0)
  }

  /** How many of `entries` have a truthy score. */
  function CountLabelled(entries: seq<Record>): (n: nat)
    ensures n <= |entries|
  {
    if |entries| == 0 then 0
    else CountLabelled(entries[..|entries| - 1]) + (if Truthy(ScoreOf(entries[|entries| - 1])) then 1 else 0)
  }

  /** The tally holds a key exactly when some entry has that score, and then the number of such entries. */
  lemma {:induction false} TallyCountsEachScore(entries: seq<Record>, k: Key)
    requires ScoresHashable(entries)
    ensures k in TallyOf(entries).entries <==> CountScore(entries, k) > 0
    ensures k in TallyOf(entries).entries ==> TallyOf(entries).entries[k] == CountScore(entries, k)
    decreases |entries|
  {
    if |entries| > 0 {
      var prefix := entries[..|entries| - 1];
      assert ScoresHashable(prefix) by {
        forall i | 0 <= i < |prefix| ensures prefix[i] == entries[i] { }
      }
      TallyCountsEachScore(prefix, k);
    }
  }

  /** Sum of the counts of `keys`. */
  function SumOver(keys: seq<Key>, m: map<Key, nat>): nat
    requires forall k :: k in keys ==> k in m
  {
    if |keys| == 0 then 0
    else SumOver(keys[..|keys| - 1], m) + m[keys[|keys| - 1]]
  }

  /** The total of a tally. */
  function Total(d: Dict<Key, nat>): nat
    requires Valid(d)
  {
    SumOver(d.order, d.entries)
  }

  lemma {:induction false} SumOverUnrelated(keys: seq<Key>, m: map<Key, nat>, k: Key, v: nat)
    requires forall k' :: k' in keys ==> k' in m
    requires k !in keys
    ensures SumOver(keys, m[k := v]) == SumOver(keys, m)
    decreases |keys|
  {
    if |keys| > 0 {
      SumOverUnrelated(keys[..|keys| - 1], m, k, v);
    }
  }

  lemma {:induction false} SumOverBump(keys: seq<Key>, m: map<Key, nat>, k: Key)
    requires forall k' :: k' in keys ==> k' in m
    requires Distinct(keys) && k in keys
    ensures SumOver(keys, m[k := m[k] + 1]) == SumOver(keys, m) + 1
    decreases |keys|
  {
    var n := |keys|;
    var prefix := keys[..n - 1];
    assert Distinct(prefix);
    if keys[n - 1] == k {
      assert k !in prefix by {
        assert forall j :: 0 <= j < n - 1 ==> prefix[j] != keys[n - 1];
      }
      SumOverUnrelated(prefix, m, k, m[k] + 1);
    } else {
      assert k in prefix by {
        var j :| 0 <= j < n && keys[j] == k;
        assert j < n - 1 && prefix[j] == k;
      }
      SumOverBump(prefix, m, k);
    }
  }

  /** Every counted entry adds one to the total, so the total is at most the number of entries. */
  lemma {:induction false} TallyTotal(entries: seq<Record>)
    requires ScoresHashable(entries)
    ensures Total(TallyOf(entries)) == CountLabelled(entries)
    ensures Total(TallyOf(entries)) <= |entries|
    decreases |entries|
  {
    if |entries| > 0 {
      var prefix := entries[..|entries| - 1];
      assert ScoresHashable(prefix) by {
        forall i | 0 <= i < |prefix| ensures prefix[i] == entries[i] { }
      }
      TallyTotal(prefix);
      var prev := TallyOf(prefix);
      var q := ScoreOf(entries[|entries| - 1]);
      if Truthy(q) {
        var k := HashKey(q).value;
        if k in prev.entries {
          SumOverBump(prev.order, prev.entries, k);
        } else {
          SumOverUnrelated(prev.order, prev.entries, k, 1);
          assert (prev.order + [k])[..|prev.order|] == prev.order;
        }
      }
    }
  }

  /** The sidebar's tally: the labels counted over the ledger's entries, in ledger order. */
  method Tally(ledger: Ledger) returns (counts: Dict<Key, nat>)
    requires Valid(ledger) && ScoresHashable(Values(ledger))
    ensures counts == TallyOf(Values(ledger))
  {
    var items := Values(ledger);
    counts := Empty();
    var i := 0;
    while i < |items|
      invariant 0 <= i <= |items|
      invariant ScoresHashable(items[..i])
      invariant counts == TallyOf(items[..i])
    {
      ghost var prev := counts;
      var quality := Get(items[i], ScoreField, Str(""));
      if Truthy(quality) {
        var k := HashKey(quality).value;
        var before := if k in counts.entries then counts.entries[k] else 0;
        counts := Insert(counts, k, before + 1);
      }
      TallyLoopStep(items, i, prev, quality, counts);
      i := i + 1;
    }
    assert items[..i] == items;
  }

  /** The tally's total never exceeds the number of entries in the ledger. */
  lemma TallyAtMostLedgerSize(ledger: Ledger)
    requires Valid(ledger) && ScoresHashable(Values(ledger))
    ensures Total(TallyOf(Values(ledger))) <= |ledger.entries|
  {
    TallyTotal(Values(ledger));
    SizeIsOrderLength(ledger);
  }
}
