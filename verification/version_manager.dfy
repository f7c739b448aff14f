/** The version manager: installed and target version and the update history, kept in three text files. */
module VersionManager {
  import opened Bytes

  const NEWLINE: Byte := 10
  const BAR: Byte := 124

  datatype Record = Record(from: Text, to: Text, result: Text)

  datatype Versions = Versions(current: Text, target: Text, history: seq<Record>)

  /** The three files; None is a file that does not exist. */
  datatype Files = Files(current: Option<Text>, target: Option<Text>, history: Option<Text>)

  const NOTHING := Versions([], [], [])

  // The text format.

  /** What one getline takes from the front of a stream. */
  function FirstLine(t: Text): Text {
    t[..IndexOf(t, NEWLINE)]
  }

  function AfterLine(t: Text): (r: Text)
    ensures t != [] ==> |r| < |t|
  {
    var n := IndexOf(t, NEWLINE);
    if n == |t| then [] else t[n + 1..]
  }

  function PrintRecord(r: Record): Text {
    r.from + [BAR] + r.to + [BAR] + r.result
  }

  function ParseRecord(line: Text): Option<Record> {
    var first := IndexOf(line, BAR);
    if first == |line| then None else
    var second := first + 1 + IndexOf(line[first + 1..], BAR);
    if second == |line| then None
    else Some(Record(line[..first], line[first + 1..second], line[second + 1..]))
  }

  function PrintHistory(h: seq<Record>): Text {
    if h == [] then [] else PrintRecord(h[0]) + [NEWLINE] + PrintHistory(h[1..])
  }

  /** The records of a history file; a line that is none is skipped. */
  function ParseHistory(t: Text): seq<Record>
    decreases |t|
  {
    if t == [] then [] else
    var r := ParseRecord(FirstLine(t));
    (if r.Some? then [r.value] else []) + ParseHistory(AfterLine(t))
  }

  function Print(v: Versions): Files {
    Files(Some(v.current), Some(v.target), Some(PrintHistory(v.history)))
  }

  function Load(f: Files): Versions {
    Versions(if f.current.Some? then FirstLine(f.current.value) else [],
             if f.target.Some? then FirstLine(f.target.value) else [],
             if f.history.Some? then ParseHistory(f.history.value) else [])
  }

  // Round trips.

  predicate CleanRecord(r: Record) {
    && NEWLINE !in r.from && BAR !in r.from
    && NEWLINE !in r.to && BAR !in r.to
    && NEWLINE !in r.result
  }

  /** No separator stands where it would be read as one. */
  predicate Clean(v: Versions) {
    && NEWLINE !in v.current && NEWLINE !in v.target
    && forall r :: r in v.history ==> CleanRecord(r)
  }

  lemma BetweenBars(r: Record)
    requires BAR !in r.from && BAR !in r.to
    ensures ParseRecord(PrintRecord(r)) == Some(r)
  {
    hide IndexOf;
    var line := PrintRecord(r);
    var tail := r.to + [BAR] + r.result;
    assert line == r.from + [BAR] + tail;
    IndexOfAt(r.from, BAR, tail);
    assert line[|r.from| + 1..] == tail;
    IndexOfAt(r.to, BAR, r.result);
    var first, second := |r.from|, |r.from| + 1 + |r.to|;
    assert line[..first] == r.from && line[first + 1..second] == r.to && line[second + 1..] == r.result;
  }

  lemma ParsePrintRecord(r: Record)
    requires CleanRecord(r)
    ensures ParseRecord(PrintRecord(r)) == Some(r)
  {
    BetweenBars(r);
  }

  lemma CutAtBar(t: Text)
    requires IndexOf(t, BAR) < |t|
    ensures var n := IndexOf(t, BAR); t == t[..n] + [BAR] + t[n + 1..] && BAR !in t[..n]
  {
    hide IndexOf;
    SplitAt(t, IndexOf(t, BAR));
  }

  lemma SplitAt(t: Text, n: nat)
    requires n < |t|
    ensures t == t[..n] + [t[n]] + t[n + 1..]
  {
  }

  lemma ParseRecordOnto(line: Text)
    requires ParseRecord(line).Some?
    ensures var r := ParseRecord(line).value;
      line == PrintRecord(r) && BAR !in r.from && BAR !in r.to
  {
    hide IndexOf;
    var first := IndexOf(line, BAR);
    var from, rest := line[..first], line[first + 1..];
    CutAtBar(line);
    var n := IndexOf(rest, BAR);
    CutAtBar(rest);
    var to, result := line[first + 1..first + 1 + n], line[first + 1 + n + 1..];
    assert to == rest[..n] && result == rest[n + 1..];
    assert ParseRecord(line) == Some(Record(from, to, result));
    hide ParseRecord;
    assert from + [BAR] + (to + [BAR] + result) == from + [BAR] + to + [BAR] + result;
  }

  /** A line is a record exactly if it has two bars; the fields are what stands between them, and the last one
      may have bars of its own. */
  lemma ParseRecordExact(line: Text, r: Record)
    ensures ParseRecord(line) == Some(r) <==>
      && line == r.from + [124] + r.to + [124] + r.result
      && 124 !in r.from && 124 !in r.to
  {
    hide ParseRecord;
    if ParseRecord(line) == Some(r) { ParseRecordOnto(line); }
    if 124 !in r.from && 124 !in r.to { BetweenBars(r); }
  }

  /** A history file is read line by line; the last line counts with a line end and without, and a line that is
      no record counts for nothing. */
  lemma HistoryByLines(line: Text, rest: Text)
    requires 10 !in line
    ensures var record := ParseRecord(line);
      var records := if record.Some? then [record.value] else [];
      ParseHistory(line + [10] + rest) == records + ParseHistory(rest) && ParseHistory(line) == records
  {
    hide ParseRecord;
    var t := line + [10] + rest;
    IndexOfAt(line, NEWLINE, rest);
    IndexOfNone(line, NEWLINE);
    assert FirstLine(t) == line && AfterLine(t) == rest;
    if line == [] {
      NoRecord();
    } else {
      assert FirstLine(line) == line && AfterLine(line) == [];
    }
  }

  lemma NoRecord()
    ensures ParseRecord([]).None?
  {
  }

  lemma PrintRecordOneLine(r: Record)
    requires CleanRecord(r)
    ensures NEWLINE !in PrintRecord(r)
  {
  }

  lemma ParseRecordClean(line: Text)
    requires NEWLINE !in line && ParseRecord(line).Some?
    ensures CleanRecord(ParseRecord(line).value)
  {
    var first := IndexOf(line, BAR);
    var n := IndexOf(line[first + 1..], BAR);
    assert line[first + 1..first + 1 + n] == line[first + 1..][..n];
  }

  lemma {:induction false} ParsePrintHistory(h: seq<Record>)
    requires forall r :: r in h ==> CleanRecord(r)
    ensures ParseHistory(PrintHistory(h)) == h
  {
    hide PrintRecord, ParseRecord, CleanRecord;
    if h != [] {
      var line, rest := PrintRecord(h[0]), PrintHistory(h[1..]);
      var t := PrintHistory(h);
      PrintRecordOneLine(h[0]);
      ParsePrintRecord(h[0]);
      IndexOfAt(line, NEWLINE, rest);
      assert t == line + [NEWLINE] + rest;
      assert FirstLine(t) == line && AfterLine(t) == rest;
      ParsePrintHistory(h[1..]);
    }
  }

  lemma {:induction false} ParseHistoryClean(t: Text)
    ensures forall r :: r in ParseHistory(t) ==> CleanRecord(r)
    decreases |t|
  {
    hide ParseRecord, CleanRecord;
    if t != [] {
      ParseHistoryClean(AfterLine(t));
      if ParseRecord(FirstLine(t)).Some? {
        ParseRecordClean(FirstLine(t));
      }
    }
  }

  /** Whatever the files hold, what is read from them is clean. */
  lemma LoadIsClean(f: Files)
    ensures Clean(Load(f))
  {
    if f.history.Some? {
      ParseHistoryClean(f.history.value);
    }
  }

  /** Main result: loading what was saved gives back the state exactly when the state is clean. */
  lemma LoadPrintExact(v: Versions)
    ensures Load(Print(v)) == v <==> Clean(v)
  {
    LoadIsClean(Print(v));
    if Clean(v) {
      hide CleanRecord;
      IndexOfNone(v.current, NEWLINE);
      IndexOfNone(v.target, NEWLINE);
      ParsePrintHistory(v.history);
    }
  }

  /** Main result: for any files at all, saving what was loaded and loading it again changes nothing. */
  lemma LoadIsStable(f: Files)
    ensures Load(Print(Load(f))) == Load(f)
  {
    LoadIsClean(f);
    LoadPrintExact(Load(f));
  }

  class VersionManager {
    var current: Text
    var target: Text
    var history: seq<Record>
    var files: Files

    function View(): Versions
      reads this
    {
      Versions(current, target, history)
    }

    /** Files left by an earlier run are read back. */
    constructor (files: Files)
      ensures View() == Load(files) && this.files == files
    {
      current, target, history := [], [], [];
      this.files := files;
      new;
      LoadFiles();
    }

    method LoadFiles()
      requires View() == NOTHING
      modifies this`current, this`target, this`history
      ensures View() == Load(files)
    {
      if files.current.Some? {
        current := FirstLine(files.current.value);
      }
      if files.target.Some? {
        target := FirstLine(files.target.value);
      }
      if files.history.Some? {
        history := ReadHistory(files.history.value);
      }
    }

    static method ReadHistory(file: Text) returns (records: seq<Record>)
      ensures records == ParseHistory(file)
    {
      hide ParseRecord, FirstLine, AfterLine;
      records := [];
      var stream := file;
      while stream != []
        invariant records + ParseHistory(stream) == ParseHistory(file)
        decreases |stream|
      {
        var record := ReadRecord(FirstLine(stream));
        stream := AfterLine(stream);
        if record.Some? {
          records := records + [record.value];
        }
      }
    }

    static method ReadRecord(line: Text) returns (r: Option<Record>)
      ensures r == ParseRecord(line)
    {
      var first := IndexOf(line, BAR);
      if first == |line| {
        return None;
      }
      var second := first + 1 + IndexOf(line[first + 1..], BAR);
      if second == |line| {
        return None;
      }
      return Some(Record(line[..first], line[first + 1..second], line[second + 1..]));
    }

    method Save()
      modifies this`files
      ensures files == Print(View())
    {
      hide PrintRecord;
      var text: Text := [];
      for i := 0 to |history|
        invariant text + PrintHistory(history[i..]) == PrintHistory(history)
      {
        assert history[i..][1..] == history[i + 1..];
        text := text + (PrintRecord(history[i]) + [NEWLINE]);
      }
      assert text + PrintHistory([]) == text && history[|history|..] == [];
      files := Files(Some(current), Some(target), Some(text));
    }

    method SetCurrent(version: Text)
      modifies this
      ensures View() == old(View()).(current := version) && files == Print(View())
    {
      current := version;
      Save();
    }

    method SetTarget(version: Text)
      modifies this
      ensures View() == old(View()).(target := version) && files == Print(View())
    {
      target := version;
      Save();
    }

    method AddRecord(from: Text, to: Text, result: Text)
      modifies this
      ensures View() == old(View()).(history := old(history) + [Record(from, to, result)]) && files == Print(View())
    {
      history := history + [Record(from, to, result)];
      Save();
    }
  }
}
