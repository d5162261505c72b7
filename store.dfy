/**
  The three file operations of the annotation tool (app.py:30-64, 88-97):
  loading the records to annotate, loading the annotations saved so far,
  and saving all annotations. Each is a method with the source's loop,
  proved equal to a function that says what it computes; the properties
  the tool relies on are lemmas about those functions.
 */
module Store {
  import opened Text
  import opened Json
  import opened Dicts

  /** What opening a path for reading finds. */
  datatype FileState = Missing | Unreadable | Readable(text: string)

  // ---------------------------------------------------------------------------
  // load_jsonl_file

  /** The records read from the input, and the 1-based numbers of the lines that failed to parse. */
  datatype RecordLoad = RecordLoad(records: seq<Value>, badLines: seq<nat>)

  /** A stripped line that is not blank but that `json.loads` rejects. */
  predicate IsBadRecordLine(c: Codec, line: string) {
    |line| != 0 && c.loads(line).None?
  }

  /**
    Reading the input line by line, each line stripped of surrounding
    whitespace (`lines` are the stripped lines): a blank line is skipped,
    a line that parses adds its value, and a line that does not parse is
    reported by number and skipped, without stopping the load.
   */
  function JsonlOf(c: Codec, lines: seq<string>): (r: RecordLoad)
    ensures |r.records| + |r.badLines| <= |lines|
    decreases |lines|
  {
    if |lines| == 0 then RecordLoad([], [])
    else JsonlStep(c, JsonlOf(c, lines[..|lines| - 1]), lines[|lines| - 1], |lines|)
  }

  /** What line number `lineNum`, stripped to `line`, adds to the load. */
  function JsonlStep(c: Codec, prev: RecordLoad, line: string, lineNum: nat): RecordLoad {
    if |line| == 0 then prev
    else
      match c.loads(line)
      case Some(v) => RecordLoad(prev.records + [v], prev.badLines)
      case None => RecordLoad(prev.records, prev.badLines + [lineNum])
  }

  /** Every reported line number is that of a non-blank line that does not parse. */
  lemma {:induction false} JsonlReportsOnlyBadLines(c: Codec, lines: seq<string>, j: nat)
    requires j < |JsonlOf(c, lines).badLines|
    ensures var n := JsonlOf(c, lines).badLines[j]; 1 <= n <= |lines| && IsBadRecordLine(c, lines[n - 1])
    decreases |lines|
  {
    var n := |lines|;
    var prefix := lines[..n - 1];
    var prev := JsonlOf(c, prefix);
    if j < |prev.badLines| {
      assert JsonlOf(c, lines).badLines[j] == prev.badLines[j];
      JsonlReportsOnlyBadLines(c, prefix, j);
      assert prefix[prev.badLines[j] - 1] == lines[prev.badLines[j] - 1];
    }
  }

  /** Independent statement of the records loaded: the values of the parsable non-blank lines, in order. */
  function ParsedValues(c: Codec, lines: seq<string>): seq<Value> {
    if |lines| == 0 then []
    else
      var line := lines[0];
      (if |line| != 0 && c.loads(line).Some? then [c.loads(line).value] else [])
      + ParsedValues(c, lines[1..])
  }

  /** Number of non-blank lines. */
  function NonBlankCount(lines: seq<string>): nat {
    if |lines| == 0 then 0
    else NonBlankCount(lines[..|lines| - 1]) + (if |lines[|lines| - 1]| != 0 then 1 else 0)
  }

  /** Each line number moved down by `offset` lines. */
  function Shift(ns: seq<nat>, offset: nat): (r: seq<nat>)
    ensures |r| == |ns|
  {
    if |ns| == 0 then [] else Shift(ns[..|ns| - 1], offset) + [ns[|ns| - 1] + offset]
  }

  /** One more line read after a split load extends its second half. */
  lemma JsonlStepAfterSplit(c: Codec, whole: RecordLoad, left: RecordLoad, right: RecordLoad,
                            line: string, offset: nat, m: nat)
    requires whole.records == left.records + right.records
    requires whole.badLines == left.badLines + Shift(right.badLines, offset)
    ensures JsonlStep(c, whole, line, offset + m).records == left.records + JsonlStep(c, right, line, m).records
    ensures JsonlStep(c, whole, line, offset + m).badLines
            == left.badLines + Shift(JsonlStep(c, right, line, m).badLines, offset)
  {
    if |line| != 0 {
      match c.loads(line)
      case Some(v) =>
        assert whole.records + [v] == left.records + (right.records + [v]);
      case None =>
        assert (right.badLines + [m])[..|right.badLines|] == right.badLines;
    }
  }

  /** Reading one more line is one more step. */
  lemma JsonlOfSnoc(c: Codec, lines: seq<string>, i: nat)
    requires i < |lines|
    ensures JsonlOf(c, lines[..i + 1]) == JsonlStep(c, JsonlOf(c, lines[..i]), lines[i], i + 1)
  {
    assert lines[..i + 1][..i] == lines[..i];
    assert lines[..i + 1][i] == lines[i];
  }

  /** Loading two pieces of a file one after the other is loading the whole file. */
  lemma {:induction false} JsonlAppend(c: Codec, a: seq<string>, b: seq<string>)
    ensures JsonlOf(c, a + b).records == JsonlOf(c, a).records + JsonlOf(c, b).records
    ensures JsonlOf(c, a + b).badLines == JsonlOf(c, a).badLines + Shift(JsonlOf(c, b).badLines, |a|)
    decreases |b|
  {
    if |b| == 0 {
      assert a + b == a;
    } else {
      var m := |b|;
      var b' := b[..m - 1];
      var ab := a + b;
      assert ab[..|ab| - 1] == a + b';
      assert ab[|ab| - 1] == b[m - 1];
      var whole := JsonlOf(c, a + b');
      var right := JsonlOf(c, b');
      assert JsonlOf(c, ab) == JsonlStep(c, whole, b[m - 1], |a| + m);
      assert JsonlOf(c, b) == JsonlStep(c, right, b[m - 1], m);
      JsonlAppend(c, a, b');
      JsonlStepAfterSplit(c, whole, JsonlOf(c, a), right, b[m - 1], |a|, m);
    }
  }

  /** A line that fails to parse contributes nothing, and the load goes on after it. */
  lemma JsonlSkipsBadLine(c: Codec, a: seq<string>, bad: string, b: seq<string>)
    requires IsBadRecordLine(c, bad)
    ensures JsonlOf(c, a + [bad] + b).records == JsonlOf(c, a).records + JsonlOf(c, b).records
    ensures |a| + 1 in JsonlOf(c, a + [bad] + b).badLines
  {
    JsonlAppend(c, a, [bad]);
    JsonlAppend(c, a + [bad], b);
    assert [bad][..0] == [];
    assert JsonlOf(c, [bad]) == RecordLoad([], [1]);
    assert JsonlOf(c, a + [bad]).badLines[|JsonlOf(c, a).badLines|] == |a| + 1;
  }

  /** The loaded records are exactly the parsed values of the good lines, in line order. */
  lemma {:induction false} JsonlLoadsParsedValues(c: Codec, lines: seq<string>)
    ensures JsonlOf(c, lines).records == ParsedValues(c, lines)
  {
    if lines != [] {
      assert lines == [lines[0]] + lines[1..];
      JsonlAppend(c, [lines[0]], lines[1..]);
      assert [lines[0]][..0] == [];
      JsonlLoadsParsedValues(c, lines[1..]);
    }
  }

  /** Every non-blank line is either loaded or reported. */
  lemma {:induction false} JsonlAccountsForEveryLine(c: Codec, lines: seq<string>)
    ensures |JsonlOf(c, lines).records| + |JsonlOf(c, lines).badLines| == NonBlankCount(lines)
    decreases |lines|
  {
    if lines != [] {
      JsonlAccountsForEveryLine(c, lines[..|lines| - 1]);
    }
  }

  /** `load_jsonl_file`: a missing or unreadable file gives no records. */
  method LoadJsonlFile(c: Codec, file: FileState) returns (data: seq<Value>, badLines: seq<nat>)
    ensures file.Readable? ==> RecordLoad(data, badLines) == JsonlOf(c, StripEach(SplitLines(file.text)))
    ensures !file.Readable? ==> data == [] && badLines == []
  {
    data, badLines := [], [];
    if file.Readable? {
      var lines := SplitLines(file.text);
      ghost var stripped := StripEach(lines);
      var lineNum := 0;
      while lineNum < |lines|
        invariant 0 <= lineNum <= |lines|
        invariant RecordLoad(data, badLines) == JsonlOf(c, stripped[..lineNum])
      {
        JsonlOfSnoc(c, stripped, lineNum);
        var line := Strip(lines[lineNum]);
        lineNum := lineNum + 1;
        if |line| != 0 {
          var parsed := c.loads(line);
          if parsed.Some? {
            data := data + [parsed.value];
          } else {
            badLines := badLines + [lineNum];
          }
        }
      }
      assert stripped[..|lines|] == stripped;
    }
  }

  // ---------------------------------------------------------------------------
  // load_existing_annotations

  /** The annotations ledger: `url_id` key to annotation entry, in insertion order. */
  type Ledger = Dict<Key, Record>

  /** Every entry is filed under its own `url_id`. */
  ghost predicate KeysConsistent(d: Ledger) {
    forall k :: k in d.entries ==> KeyOf(d.entries[k]) == Some(k)
  }

  /** How one line of the annotations file is read. */
  datatype LedgerLine = Blank | Entry(key: Key, entry: Record) | Bad

  /**
    A stripped line that is not blank is an entry when it parses to an
    object whose `url_id` can be a dict key; otherwise reading it raises
    (a decode error, `.get` on a non-object, or an unhashable key).
   */
  function ReadLedgerLine(c: Codec, line: string): (r: LedgerLine)
    ensures r.Blank? <==> |line| == 0
    ensures r.Entry? ==> c.loads(line) == Some(Obj(r.entry)) && KeyOf(r.entry) == Some(r.key)
    ensures r.Bad? <==>
              |line| != 0 && (c.loads(line).None?
                             || !c.loads(line).value.Obj?
                             || KeyOf(c.loads(line).value.fields).None?)
  {
    if |line| == 0 then Blank
    else
      match c.loads(line)
      case None => Bad
      case Some(v) =>
        if v.Obj? && KeyOf(v.fields).Some? then Entry(KeyOf(v.fields).value, v.fields) else Bad
  }

  /** The ledger read so far, and the index of the line that stopped the read, if one did. */
  datatype LedgerLoad = LedgerLoad(ledger: Ledger, stoppedAt: Option<nat>)

  /**
    Reading the annotations file, each line stripped of surrounding
    whitespace (`lines` are the stripped lines): each entry line is stored under its
    `url_id`, replacing an earlier entry with the same key; the first bad
    line ends the read, keeping what was read before it.
   */
  function AnnotationsOf(c: Codec, lines: seq<string>): (r: LedgerLoad)
    ensures r.stoppedAt.Some? ==> r.stoppedAt.value < |lines|
    decreases |lines|
  {
    if |lines| == 0 then LedgerLoad(Empty(), None)
    else AnnotationsStep(c, AnnotationsOf(c, lines[..|lines| - 1]), lines[|lines| - 1], |lines| - 1)
  }

  /** What the line at index `i`, stripped to `line`, does to a read that has reached it. */
  function AnnotationsStep(c: Codec, prev: LedgerLoad, line: string, i: nat): (r: LedgerLoad)
    ensures prev.stoppedAt.Some? ==> r == prev
    ensures r.stoppedAt.Some? ==> r.stoppedAt == prev.stoppedAt || r.stoppedAt == Some(i)
  {
    if prev.stoppedAt.Some? then prev
    else
      match ReadLedgerLine(c, line)
      case Blank => prev
      case Bad => LedgerLoad(prev.ledger, Some(i))
      case Entry(k, e) => LedgerLoad(Insert(prev.ledger, k, e), None)
  }

  /** A step that stops a running read is a bad line, and keeps the ledger as it was. */
  lemma StepStopsOnlyAtBadLine(c: Codec, prev: LedgerLoad, line: string, i: nat)
    requires prev.stoppedAt.None? && AnnotationsStep(c, prev, line, i).stoppedAt.Some?
    ensures ReadLedgerLine(c, line).Bad?
    ensures AnnotationsStep(c, prev, line, i) == LedgerLoad(prev.ledger, Some(i))
  {
  }

  /** A step keeps the ledger well formed: keys in order once each, each entry under its own `url_id`. */
  lemma StepWellFormed(c: Codec, prev: LedgerLoad, line: string, i: nat)
    requires Valid(prev.ledger) && KeysConsistent(prev.ledger)
    ensures var r := AnnotationsStep(c, prev, line, i); Valid(r.ledger) && KeysConsistent(r.ledger)
  {
  }

  /** Every read gives a well formed ledger. */
  lemma {:induction false} AnnotationsWellFormed(c: Codec, lines: seq<string>)
    ensures Valid(AnnotationsOf(c, lines).ledger) && KeysConsistent(AnnotationsOf(c, lines).ledger)
    decreases |lines|
  {
    if |lines| > 0 {
      AnnotationsWellFormed(c, lines[..|lines| - 1]);
      StepWellFormed(c, AnnotationsOf(c, lines[..|lines| - 1]), lines[|lines| - 1], |lines| - 1);
    }
  }

  /** A read stops only at a bad line, and what it holds is what the lines before that one gave. */
  lemma {:induction false} AnnotationsStopAtBadLine(c: Codec, lines: seq<string>)
    requires AnnotationsOf(c, lines).stoppedAt.Some?
    ensures var i := AnnotationsOf(c, lines).stoppedAt.value;
            && ReadLedgerLine(c, lines[i]).Bad?
            && AnnotationsOf(c, lines[..i]) == LedgerLoad(AnnotationsOf(c, lines).ledger, None)
    decreases |lines|
  {
    var n := |lines|;
    var prefix := lines[..n - 1];
    var prev := AnnotationsOf(c, prefix);
    assert AnnotationsOf(c, lines) == AnnotationsStep(c, prev, lines[n - 1], n - 1);
    if prev.stoppedAt.Some? {
      AnnotationsStopAtBadLine(c, prefix);
      var i := prev.stoppedAt.value;
      assert prefix[i] == lines[i];
      assert prefix[..i] == lines[..i];
    } else {
      StepStopsOnlyAtBadLine(c, prev, lines[n - 1], n - 1);
      assert prefix == lines[..n - 1];
    }
  }

  /** Once a read has stopped, the lines after it change nothing. */
  lemma {:induction false} AnnotationsIgnoreLinesAfterStop(c: Codec, a: seq<string>, b: seq<string>)
    requires AnnotationsOf(c, a).stoppedAt.Some?
    ensures AnnotationsOf(c, a + b) == AnnotationsOf(c, a)
    decreases |b|
  {
    if |b| == 0 {
      assert a + b == a;
    } else {
      assert (a + b)[..|a + b| - 1] == a + b[..|b| - 1];
      AnnotationsIgnoreLinesAfterStop(c, a, b[..|b| - 1]);
    }
  }

  /** The first bad line stops the read: the entries before it are kept, the lines after it dropped. */
  lemma AnnotationsStopAtFirstBadLine(c: Codec, a: seq<string>, bad: string, b: seq<string>)
    requires AnnotationsOf(c, a).stoppedAt.None?
    requires ReadLedgerLine(c, bad).Bad?
    ensures AnnotationsOf(c, a + [bad] + b) == LedgerLoad(AnnotationsOf(c, a).ledger, Some(|a|))
  {
    assert (a + [bad])[..|a|] == a;
    assert AnnotationsOf(c, a + [bad]) == LedgerLoad(AnnotationsOf(c, a).ledger, Some(|a|));
    AnnotationsIgnoreLinesAfterStop(c, a + [bad], b);
  }

  /** Reading one more line is one more step. */
  lemma AnnotationsOfSnoc(c: Codec, lines: seq<string>, i: nat)
    requires i < |lines|
    ensures AnnotationsOf(c, lines[..i + 1]) == AnnotationsStep(c, AnnotationsOf(c, lines[..i]), lines[i], i)
  {
    assert lines[..i + 1][..i] == lines[..i];
    assert lines[..i + 1][i] == lines[i];
  }

  /** A step that neither stops the read nor reads an entry under `k` leaves `k`'s entry alone. */
  lemma StepKeepsOtherKey(c: Codec, prev: LedgerLoad, line: string, i: nat, k: Key)
    requires k in prev.ledger.entries
    requires !(ReadLedgerLine(c, line).Entry? && ReadLedgerLine(c, line).key == k)
    ensures var r := AnnotationsStep(c, prev, line, i);
            k in r.ledger.entries && r.ledger.entries[k] == prev.ledger.entries[k]
  {
  }

  /** A step that reads an entry from a running read stores it under its key. */
  lemma StepStoresEntry(c: Codec, prev: LedgerLoad, line: string, i: nat)
    requires prev.stoppedAt.None? && ReadLedgerLine(c, line).Entry?
    ensures var r := AnnotationsStep(c, prev, line, i);
            var line := ReadLedgerLine(c, line);
            r.stoppedAt.None? && line.key in r.ledger.entries && r.ledger.entries[line.key] == line.entry
  {
  }

  /** When nothing stopped the read, each key holds the entry of the last line with that key. */
  lemma {:induction false} AnnotationsLastLineWins(c: Codec, lines: seq<string>, i: nat)
    requires AnnotationsOf(c, lines).stoppedAt.None?
    requires i < |lines| && ReadLedgerLine(c, lines[i]).Entry?
    requires forall j :: i < j < |lines| ==>
               !(ReadLedgerLine(c, lines[j]).Entry? && ReadLedgerLine(c, lines[j]).key == ReadLedgerLine(c, lines[i]).key)
    ensures var k := ReadLedgerLine(c, lines[i]).key;
            k in AnnotationsOf(c, lines).ledger.entries
            && AnnotationsOf(c, lines).ledger.entries[k] == ReadLedgerLine(c, lines[i]).entry
    decreases |lines|
  {
    var n := |lines|;
    var prefix := lines[..n - 1];
    var prev := AnnotationsOf(c, prefix);
    assert AnnotationsOf(c, lines) == AnnotationsStep(c, prev, lines[n - 1], n - 1);
    assert prev.stoppedAt.None?;
    if i < n - 1 {
      assert prefix[i] == lines[i];
      forall j | i < j < |prefix| ensures prefix[j] == lines[j] { }
      AnnotationsLastLineWins(c, prefix, i);
      StepKeepsOtherKey(c, prev, lines[n - 1], n - 1, ReadLedgerLine(c, lines[i]).key);
    } else {
      StepStoresEntry(c, prev, lines[n - 1], n - 1);
    }
  }

  /** A key present after a step either was there before with the same entry, or came from the line read. */
  lemma StepKeyOrigin(c: Codec, prev: LedgerLoad, line: string, i: nat, k: Key)
    requires k in AnnotationsStep(c, prev, line, i).ledger.entries
    ensures var e := AnnotationsStep(c, prev, line, i).ledger.entries[k];
            (k in prev.ledger.entries && prev.ledger.entries[k] == e) || ReadLedgerLine(c, line) == Entry(k, e)
  {
  }

  /** Every key in the loaded ledger comes from some entry line. */
  lemma {:induction false} AnnotationsKeysComeFromLines(c: Codec, lines: seq<string>, k: Key)
    requires k in AnnotationsOf(c, lines).ledger.entries
    ensures exists i :: 0 <= i < |lines| && ReadLedgerLine(c, lines[i]) == Entry(k, AnnotationsOf(c, lines).ledger.entries[k])
    decreases |lines|
  {
    var n := |lines|;
    var prefix := lines[..n - 1];
    var prev := AnnotationsOf(c, prefix);
    var e := AnnotationsOf(c, lines).ledger.entries[k];
    assert AnnotationsOf(c, lines) == AnnotationsStep(c, prev, lines[n - 1], n - 1);
    StepKeyOrigin(c, prev, lines[n - 1], n - 1, k);
    if ReadLedgerLine(c, lines[n - 1]) != Entry(k, e) {
      AnnotationsKeysComeFromLines(c, prefix, k);
      var i :| 0 <= i < |prefix| && ReadLedgerLine(c, prefix[i]) == Entry(k, e);
      assert prefix[i] == lines[i];
    }
  }

  /**
    `load_existing_annotations`: a missing file gives an empty ledger and
    no error; a file that cannot be read gives an empty ledger and an error;
    otherwise the ledger read up to the first bad line, with an error when one was met.
   */
  method LoadExistingAnnotations(c: Codec, file: FileState) returns (annotations: Ledger, error: bool)
    ensures Valid(annotations) && KeysConsistent(annotations)
    ensures file.Missing? ==> annotations == Empty() && !error
    ensures file.Unreadable? ==> annotations == Empty() && error
    ensures file.Readable? ==>
              var r := AnnotationsOf(c, StripEach(SplitLines(file.text)));
              annotations == r.ledger && error == r.stoppedAt.Some?
  {
    if file.Readable? {
      var stoppedAt;
      annotations, stoppedAt := ReadLedgerLines(c, SplitLines(file.text));
      AnnotationsWellFormed(c, StripEach(SplitLines(file.text)));
      error := stoppedAt.Some?;
    } else {
      annotations := Empty();
      error := file.Unreadable?;
    }
  }

  /** The loop of `load_existing_annotations` over the lines of a readable file. */
  method ReadLedgerLines(c: Codec, lines: seq<string>) returns (annotations: Ledger, stoppedAt: Option<nat>)
    ensures LedgerLoad(annotations, stoppedAt) == AnnotationsOf(c, StripEach(lines))
  {
    ghost var stripped := StripEach(lines);
    annotations := Empty();
    stoppedAt := None;
    var i := 0;
    while i < |lines| && stoppedAt.None?
      invariant 0 <= i <= |lines|
      invariant LedgerLoad(annotations, stoppedAt) == AnnotationsOf(c, stripped[..i])
    {
      ghost var next := AnnotationsStep(c, LedgerLoad(annotations, stoppedAt), stripped[i], i);
      AnnotationsOfSnoc(c, stripped, i);
      var line := ReadLedgerLine(c, Strip(lines[i]));
      match line {
        case Blank =>
        case Bad => stoppedAt := Some(i);
        case Entry(k, e) => annotations := Insert(annotations, k, e);
      }
      assert LedgerLoad(annotations, stoppedAt) == next;
      i := i + 1;
      assert LedgerLoad(annotations, stoppedAt) == AnnotationsOf(c, stripped[..i]);
    }
    if i < |lines| {
      assert stripped == stripped[..i] + stripped[i..];
      AnnotationsIgnoreLinesAfterStop(c, stripped[..i], stripped[i..]);
    } else {
      assert stripped[..i] == stripped;
    }
  }

  // ---------------------------------------------------------------------------
  // save_annotations_to_file

  /** One `json.dumps` line per entry, in the ledger's iteration order. */
  function EncodedLines(c: Codec, d: Ledger): seq<string>
    requires Valid(d)
  {
    seq(|d.order|, i requires 0 <= i < |d.order| => c.dumps(d.entries[d.order[i]]) + "\n")
  }

  /** The contents `save_annotations_to_file` writes. */
  function LedgerText(c: Codec, d: Ledger): string
    requires Valid(d)
  {
    Join(EncodedLines(c, d))
  }

  /** `save_annotations_to_file`: the text written, line by line; whether the write succeeds is the caller's to say. */
  method SaveAnnotationsToFile(c: Codec, annotations: Ledger) returns (text: string)
    requires Valid(annotations)
    ensures text == LedgerText(c, annotations)
  {
    var items := Values(annotations);
    ghost var lines := EncodedLines(c, annotations);
    text := "";
    var i := 0;
    while i < |items|
      invariant 0 <= i <= |items|
      invariant text == Join(lines[..i])
    {
      JoinAppend(lines[..i], lines[i]);
      assert lines[..i + 1] == lines[..i] + [lines[i]];
      text := text + (c.dumps(items[i]) + "\n");
      i := i + 1;
    }
    assert lines[..i] == lines;
  }

  /** The saved file has exactly one line per entry, each being that entry's encoding. */
  lemma SavedLines(c: Codec, d: Ledger)
    requires ValidCodec(c) && Valid(d)
    ensures SplitLines(LedgerText(c, d)) == EncodedLines(c, d)
    ensures |SplitLines(LedgerText(c, d))| == |d.entries|
  {
    var lines := EncodedLines(c, d);
    forall i | 0 <= i < |lines|
      ensures |lines[i]| > 0 && lines[i][|lines[i]| - 1] == '\n' && '\n' !in lines[i][..|lines[i]| - 1]
    {
      var s := c.dumps(d.entries[d.order[i]]);
      assert IsEncodedLine(s);
      assert lines[i][..|lines[i]| - 1] == s;
    }
    SplitJoin(lines);
    SizeIsOrderLength(d);
  }

  /** The saved lines with their newlines and surrounding whitespace stripped: each entry's `json.dumps`. */
  function DumpedEntries(c: Codec, d: Ledger): (lines: seq<string>)
    requires Valid(d)
    ensures |lines| == |d.order|
    ensures forall i :: 0 <= i < |lines| ==> lines[i] == c.dumps(d.entries[d.order[i]])
  {
    seq(|d.order|, i requires 0 <= i < |d.order| => c.dumps(d.entries[d.order[i]]))
  }

  /** Stripping each saved line leaves exactly the encoding of its entry. */
  lemma StrippedSavedLines(c: Codec, d: Ledger)
    requires ValidCodec(c) && Valid(d)
    ensures StripEach(EncodedLines(c, d)) == DumpedEntries(c, d)
  {
    forall i | 0 <= i < |d.order|
      ensures Strip(EncodedLines(c, d)[i]) == DumpedEntries(c, d)[i]
    {
      var s := c.dumps(d.entries[d.order[i]]);
      assert IsEncodedLine(s);
      StripTerminated(s);
    }
  }

  /** The first `i` keys of a dict and their entries. */
  function Prefix(d: Ledger, i: nat): (p: Ledger)
    requires Valid(d) && i <= |d.order|
    ensures Valid(p)
  {
    var keys := d.order[..i];
    assert forall k :: k in keys ==> k in d.order;
    Dict(keys, map k | k in keys :: d.entries[k])
  }

  /** Reading back the saved line of an entry filed under its own `url_id` gives that entry. */
  lemma ReadSavedLine(c: Codec, k: Key, e: Record)
    requires ValidCodec(c) && KeyOf(e) == Some(k)
    ensures ReadLedgerLine(c, c.dumps(e)) == Entry(k, e)
  {
    assert IsEncodedLine(c.dumps(e)) && c.loads(c.dumps(e)) == Some(Obj(e));
  }

  /** Inserting the next key in order into a prefix of a dict gives the next prefix. */
  lemma PrefixGrows(d: Ledger, i: nat)
    requires Valid(d) && i < |d.order|
    ensures Insert(Prefix(d, i), d.order[i], d.entries[d.order[i]]) == Prefix(d, i + 1)
  {
    var k := d.order[i];
    var p := Prefix(d, i);
    NextKeyIsNew(d, i);
    assert d.order[..i] + [k] == d.order[..i + 1];
    assert p.entries[k := d.entries[k]] == Prefix(d, i + 1).entries;
  }

  /** The next key in order is not among the keys before it. */
  lemma NextKeyIsNew(d: Ledger, i: nat)
    requires Valid(d) && i < |d.order|
    ensures d.order[i] !in Prefix(d, i).entries
  {
    assert forall j :: 0 <= j < i ==> Prefix(d, i).order[j] != d.order[i];
  }

  /** The prefix of all the keys is the whole dict. */
  lemma PrefixAll(d: Ledger)
    requires Valid(d)
    ensures Prefix(d, |d.order|) == d
  {
    assert d.order[..|d.order|] == d.order;
    assert Prefix(d, |d.order|).entries == d.entries;
  }

  /** Reading the saved line of the next key extends the read of a prefix to the next prefix. */
  lemma RoundTripStep(c: Codec, d: Ledger, i: nat)
    requires ValidCodec(c) && Valid(d) && KeysConsistent(d) && 0 < i <= |d.order|
    requires AnnotationsOf(c, DumpedEntries(c, d)[..i - 1]) == LedgerLoad(Prefix(d, i - 1), None)
    ensures AnnotationsOf(c, DumpedEntries(c, d)[..i]) == LedgerLoad(Prefix(d, i), None)
  {
    var k := d.order[i - 1];
    AnnotationsOfSnoc(c, DumpedEntries(c, d), i - 1);
    ReadSavedLine(c, k, d.entries[k]);
    PrefixGrows(d, i - 1);
  }

  /** Reading back the first `i` saved lines gives the first `i` entries. */
  lemma {:induction false} RoundTripPrefix(c: Codec, d: Ledger, i: nat)
    requires ValidCodec(c) && Valid(d) && KeysConsistent(d) && i <= |d.order|
    ensures AnnotationsOf(c, DumpedEntries(c, d)[..i]) == LedgerLoad(Prefix(d, i), None)
  {
    if i == 0 {
      assert DumpedEntries(c, d)[..0] == [];
      assert Prefix(d, 0).entries == map[];
    } else {
      RoundTripPrefix(c, d, i - 1);
      RoundTripStep(c, d, i);
    }
  }

  /** Reading back all the saved lines gives the whole ledger. */
  lemma ReadBackDumpedEntries(c: Codec, d: Ledger)
    requires ValidCodec(c) && Valid(d) && KeysConsistent(d)
    ensures AnnotationsOf(c, DumpedEntries(c, d)) == LedgerLoad(d, None)
  {
    RoundTripPrefix(c, d, |d.order|);
    assert DumpedEntries(c, d)[..|d.order|] == DumpedEntries(c, d);
    PrefixAll(d);
  }

  /**
    Saving a ledger whose entries are filed under their own `url_id` and
    loading the file back gives the same ledger, in the same order, with no error.
   */
  lemma LedgerRoundTrip(c: Codec, d: Ledger)
    requires ValidCodec(c) && Valid(d) && KeysConsistent(d)
    ensures AnnotationsOf(c, StripEach(SplitLines(LedgerText(c, d)))) == LedgerLoad(d, None)
  {
    SavedLines(c, d);
    StrippedSavedLines(c, d);
    ReadBackDumpedEntries(c, d);
  }
}
