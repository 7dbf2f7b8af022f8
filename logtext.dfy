/** The parse of `git log -z --summary` output in `logFile` (lib/git-fs.js):
    commits separated by NUL characters, each a `commit <sha>` line, header
    lines `Name: value`, an empty line and the message. A record without one of
    these makes the source throw; `None` stands for that. */
module LogText {
  import opened Wrappers
  import opened Text
  import opened GitTypes

  const CommitPrefix: string := "commit "

  /** `^[A-Z][a-z]*:` on a line, with its ':' at index `j`. */
  predicate ColonAt(line: string, j: nat) {
    && 1 <= j < |line|
    && IsUpper(line[0])
    && (forall k :: 1 <= k < j ==> IsLower(line[k]))
    && line[j] == ':'
  }

  /** The end of the run of `[a-z]` starting at `from`. */
  function LowerRunEnd(line: string, from: nat): (j: nat)
    requires from <= |line|
    ensures from <= j <= |line|
    ensures forall k :: from <= k < j ==> IsLower(line[k])
    ensures j < |line| ==> !IsLower(line[j])
    decreases |line| - from
  {
    if from == |line| || !IsLower(line[from]) then from else LowerRunEnd(line, from + 1)
  }

  /** Where the header name of a line ends, if the line is a header line. */
  function HeaderColon(line: string): (j: Option<nat>)
    ensures j.Some? ==> ColonAt(line, j.value)
    ensures j.None? ==> forall i: nat :: !ColonAt(line, i)
  {
    if |line| == 0 || !IsUpper(line[0]) then None
    else
      var j := LowerRunEnd(line, 1);
      if j < |line| && line[j] == ':' then Some(j)
      else
        assert forall i: nat :: !ColonAt(line, i) by {
          forall i: nat | 1 <= i < |line| && i != j ensures !ColonAt(line, i) {
            if i > j {
              assert !IsLower(line[j]);
            } else {
              assert IsLower(line[i]);
            }
          }
        }
        None
  }

  /** A header line: the field name, lower-cased, and the value after the ':'
      with its leading white space removed (`/^([A-Za-z]+):\s*(.*)$/`). */
  function HeaderField(line: string, j: nat): (field: (string, string))
    requires ColonAt(line, j)
  {
    (ToLowerAscii(line[..j]), TrimStart(line[j + 1..]))
  }

  /** The header fields of a record's lines, in order: `match(/^…$/gm)` keeps the
      header lines and the `forEach` parses each. */
  function HeadersOf(lines: seq<string>): (hs: seq<(string, string)>)
    ensures |hs| <= |lines|
    decreases |lines|
  {
    if lines == [] then []
    else
      var hs := HeadersOf(lines[..|lines| - 1]);
      var line := lines[|lines| - 1];
      match HeaderColon(line)
      case None => hs
      case Some(j) => hs + [HeaderField(line, j)]
  }

  /** The `data` object: the message first, then each header field assigned in
      turn, so a later field of the same name replaces an earlier one. */
  function FieldsOf(message: string, hs: seq<(string, string)>): (fields: map<string, string>)
    decreases |hs|
  {
    if hs == [] then map["message" := message]
    else FieldsOf(message, hs[..|hs| - 1])[hs[|hs| - 1].0 := hs[|hs| - 1].1]
  }

  /** The fields hold "message" and every header name; each name holds the value
      of its last header, and "message" the message unless a header replaced it. */
  lemma {:induction false} LaterFieldWins(message: string, hs: seq<(string, string)>, i: nat)
    requires i < |hs|
    requires forall k :: i < k < |hs| ==> hs[k].0 != hs[i].0
    ensures hs[i].0 in FieldsOf(message, hs) && FieldsOf(message, hs)[hs[i].0] == hs[i].1
    decreases |hs|
  {
    if i < |hs| - 1 {
      LaterFieldWins(message, hs[..|hs| - 1], i);
    }
  }

  lemma {:induction false} MessageUnlessReplaced(message: string, hs: seq<(string, string)>)
    requires forall k :: 0 <= k < |hs| ==> hs[k].0 != "message"
    ensures FieldsOf(message, hs) == FieldsOf(message, hs)["message" := message]
    ensures "message" in FieldsOf(message, hs) && FieldsOf(message, hs)["message"] == message
    decreases |hs|
  {
    if hs != [] {
      MessageUnlessReplaced(message, hs[..|hs| - 1]);
    }
  }

  lemma {:induction false} FieldNames(message: string, hs: seq<(string, string)>, name: string)
    ensures name in FieldsOf(message, hs) <==> name == "message" || exists k :: 0 <= k < |hs| && hs[k].0 == name
    decreases |hs|
  {
    if hs != [] {
      var init := hs[..|hs| - 1];
      FieldNames(message, init, name);
      if exists k :: 0 <= k < |init| && init[k].0 == name {
        var k :| 0 <= k < |init| && init[k].0 == name;
        assert hs[k].0 == name;
      }
      if exists k :: 0 <= k < |hs| && hs[k].0 == name {
        var k :| 0 <= k < |hs| && hs[k].0 == name;
        if k < |init| { assert init[k].0 == name; }
      }
    }
  }

  /** A header line is read back as written: a capitalised name, ':', white
      space and a value of one line give the lower-cased name and the value. */
  lemma HeaderLineRoundTrip(name: string, gap: string, value: string)
    requires |name| >= 1 && IsUpper(name[0]) && forall k :: 1 <= k < |name| ==> IsLower(name[k])
    requires AllSpace(gap) && (value == "" || !IsSpace(value[0]))
    ensures var line := name + ":" + gap + value;
      HeaderColon(line) == Some(|name|) && HeaderField(line, |name|) == (ToLowerAscii(name), value)
  {
    var line := name + ":" + gap + value;
    assert ColonAt(line, |name|);
    assert line[..|name|] == name;
    assert line[|name| + 1..] == gap + value;
    SkipSpace(gap, value);
    LowerRunEndAt(line, 1, |name|);
  }

  lemma {:induction false} LowerRunEndAt(line: string, from: nat, j: nat)
    requires from <= j < |line| && !IsLower(line[j])
    requires forall k :: from <= k < j ==> IsLower(line[k])
    ensures LowerRunEnd(line, from) == j
    decreases j - from
  {
    if from < j {
      LowerRunEndAt(line, from + 1, j);
    }
  }

  lemma {:induction false} SkipSpace(gap: string, value: string)
    requires AllSpace(gap) && (value == "" || !IsSpace(value[0]))
    ensures TrimStart(gap + value) == value
  {
    LeadingGap(gap, value);
    assert (gap + value)[|gap|..] == value;
  }

  lemma {:induction false} LeadingGap(gap: string, value: string)
    requires AllSpace(gap) && (value == "" || !IsSpace(value[0]))
    ensures LeadingSpace(gap + value) == |gap|
    decreases |gap|
  {
    if gap != [] {
      assert (gap + value)[1..] == gap[1..] + value;
      LeadingGap(gap[1..], value);
    } else {
      assert gap + value == value;
    }
  }

  /** `/^commit ([a-f0-9]{40})/`. */
  predicate HasCommit(entry: string) {
    StartsAt(entry, 0, CommitPrefix) && Hex40At(entry, 7)
  }

  /** The 40 characters after "commit ", which `ParseRecord` takes as the id. */
  function CommitIdOf(entry: string): string {
    if |entry| >= 47 then entry[7..47] else ""
  }

  /** The message: what follows the first empty line, trimmed. */
  function MessageOf(entry: string, m: nat): string
    requires m + 2 <= |entry|
  {
    Trim(entry[m + 2..])
  }

  /** One record, or `None` when the source throws on it: no `commit <sha>` at its
      start, no empty line before a message, or no header line at all. */
  function ParseRecord(entry: string): (r: Option<LogEntry>)
    ensures var m := Find(entry, "\n\n", 0);
      var hs := HeadersOf(SplitOn(entry, LineTerminators));
      && (r.Some? <==> HasCommit(entry) && m < |entry| && hs != [])
      && (r.Some? ==> r.value == LogEntry(entry[7..47], FieldsOf(MessageOf(entry, m), hs)))
  {
    var m := Find(entry, "\n\n", 0);
    var hs := HeadersOf(SplitOn(entry, LineTerminators));
    if !HasCommit(entry) || m == |entry| || hs == [] then None
    else Some(LogEntry(entry[7..47], FieldsOf(MessageOf(entry, m), hs)))
  }

  /** The index of the entry for `commit` in the log, or `|log|`. */
  function IndexOfCommit(log: seq<LogEntry>, commit: string): (i: nat)
    ensures i <= |log|
    ensures i < |log| ==> log[i].commit == commit
    ensures forall k :: 0 <= k < i ==> log[k].commit != commit
    decreases |log|
  {
    if log == [] then 0
    else if log[0].commit == commit then 0
    else 1 + IndexOfCommit(log[1..], commit)
  }

  /** All commit ids of a log are different: it is the property set of an object. */
  predicate DistinctCommits(log: seq<LogEntry>) {
    forall i, j :: 0 <= i < j < |log| ==> log[i].commit != log[j].commit
  }

  /** `log[commit] = data`: a new commit is added at the end, a known one keeps
      its place and takes the new fields. */
  function Put(log: seq<LogEntry>, e: LogEntry): (log': seq<LogEntry>)
    requires DistinctCommits(log)
    ensures DistinctCommits(log')
    ensures e in log'
    ensures forall x :: x in log' ==> x == e || (x in log && x.commit != e.commit)
    ensures forall x :: x in log && x.commit != e.commit ==> x in log'
    ensures forall i :: 0 <= i < |log| && log[i].commit == e.commit ==> log' == log[i := e]
    ensures (forall i :: 0 <= i < |log| ==> log[i].commit != e.commit) ==> log' == log + [e]
  {
    var i := IndexOfCommit(log, e.commit);
    if i < |log| then
      var log' := log[i := e];
      assert log'[i] == e;
      assert forall k :: 0 <= k < |log| && k != i ==> log'[k] == log[k];
      log'
    else log + [e]
  }

  /** The records parsed in order into the log, or `None` when one throws. */
  function LogOf(records: seq<string>): (r: Option<seq<LogEntry>>)
    ensures r.Some? ==> DistinctCommits(r.value)
    decreases |records|
  {
    if records == [] then Some([])
    else
      match LogOf(records[..|records| - 1])
      case None => None
      case Some(log) =>
        match ParseRecord(records[|records| - 1])
        case None => None
        case Some(e) => Some(Put(log, e))
  }

  /** The value `logFile` calls back with: `[]` for empty output, otherwise the
      object of all records; `None` when a record makes it throw. */
  function ParseLog(text: string): (r: Option<Value>)
    ensures text == "" ==> r == Some(EmptyHistory)
    ensures text != "" ==> (r.Some? <==> LogOf(SplitOn(text, {'\0'})).Some?)
    ensures text != "" && r.Some? ==> r.value == History(LogOf(SplitOn(text, {'\0'})).value)
  {
    if text == "" then Some(EmptyHistory)
    else
      match LogOf(SplitOn(text, {'\0'}))
      case None => None
      case Some(log) => Some(History(log))
  }

  /** Every record's commit is in the log, holding the fields of the last record
      with that commit; every entry of the log comes from a record. */
  lemma {:induction false} LastRecordWins(records: seq<string>, i: nat)
    requires LogOf(records).Some? && i < |records|
    requires forall k :: i < k < |records| ==> CommitIdOf(records[k]) != CommitIdOf(records[i])
    ensures ParseRecord(records[i]).Some? && ParseRecord(records[i]).value in LogOf(records).value
    decreases |records|
  {
    var init := records[..|records| - 1];
    assert LogOf(init).Some?;
    if i == |records| - 1 {
    } else {
      forall k | i < k < |init| ensures CommitIdOf(init[k]) != CommitIdOf(init[i]) {
        assert init[k] == records[k];
      }
      LastRecordWins(init, i);
      assert init[i] == records[i];
    }
  }

  lemma {:induction false} EntriesFromRecords(records: seq<string>, x: LogEntry)
    requires LogOf(records).Some? && x in LogOf(records).value
    ensures exists k :: 0 <= k < |records| && ParseRecord(records[k]) == Some(x)
    decreases |records|
  {
    var init := records[..|records| - 1];
    var e := ParseRecord(records[|records| - 1]).value;
    if x != e {
      EntriesFromRecords(init, x);
      var k :| 0 <= k < |init| && ParseRecord(init[k]) == Some(x);
      assert records[k] == init[k];
    }
  }

  /** The `forEach` over the header lines of one record that fills `data`;
      `matched` says whether `match` found any header line. */
  method FillFields(lines: seq<string>, message: string) returns (fields: map<string, string>, matched: bool)
    ensures fields == FieldsOf(message, HeadersOf(lines))
    ensures matched <==> HeadersOf(lines) != []
  {
    fields := map["message" := message];
    ghost var hs: seq<(string, string)> := [];
    matched := false;
    for i := 0 to |lines|
      invariant hs == HeadersOf(lines[..i])
      invariant matched <==> hs != []
      invariant fields == FieldsOf(message, hs)
    {
      HeadersOfStep(lines, i);
      var line := lines[i];
      var j := HeaderColon(line);
      if j.Some? {
        var field := HeaderField(line, j.value);
        FieldsOfStep(message, hs, field);
        fields := fields[field.0 := field.1];
        hs := hs + [field];
        matched := true;
      }
    }
    assert lines[..|lines|] == lines;
  }

  lemma HeadersOfStep(lines: seq<string>, i: nat)
    requires i < |lines|
    ensures HeadersOf(lines[..i + 1]) == HeadersOf(lines[..i]) +
      (match HeaderColon(lines[i]) case None => [] case Some(j) => [HeaderField(lines[i], j)])
  {
    assert lines[..i + 1][..i] == lines[..i];
  }

  lemma FieldsOfStep(message: string, hs: seq<(string, string)>, field: (string, string))
    ensures FieldsOf(message, hs + [field]) == FieldsOf(message, hs)[field.0 := field.1]
  {
    assert (hs + [field])[..|hs|] == hs;
  }

  /** The parse of one record. */
  method ParseEntry(entry: string) returns (r: Option<LogEntry>)
    ensures r == ParseRecord(entry)
  {
    if !HasCommit(entry) {
      return None;
    }
    var m := Find(entry, "\n\n", 0);
    if m == |entry| {
      return None;
    }
    var fields, matched := FillFields(SplitOn(entry, LineTerminators), MessageOf(entry, m));
    if !matched {
      return None;
    }
    r := Some(LogEntry(entry[7..47], fields));
  }

  /** `logFile`'s callback on git's output: `[]` when there is none, otherwise
      the log of its NUL-separated records. */
  method ParseHistory(text: string) returns (r: Option<Value>)
    ensures r == ParseLog(text)
  {
    if |text| == 0 {
      return Some(EmptyHistory);
    }
    var log := FillLog(SplitOn(text, {'\0'}));
    if log.None? {
      return None;
    }
    r := Some(History(log.value));
  }

  /** The `forEach` over the records that fills `log`. */
  method FillLog(records: seq<string>) returns (r: Option<seq<LogEntry>>)
    ensures r == LogOf(records)
  {
    var log: seq<LogEntry> := [];
    for i := 0 to |records|
      invariant LogOf(records[..i]) == Some(log)
    {
      LogOfStep(records, i, log);
      var e := ParseEntry(records[i]);
      if e.None? {
        LogFailsAfter(records, i + 1);
        return None;
      }
      log := Put(log, e.value);
    }
    assert records[..|records|] == records;
    r := Some(log);
  }

  lemma LogOfStep(records: seq<string>, i: nat, log: seq<LogEntry>)
    requires i < |records| && LogOf(records[..i]) == Some(log)
    ensures ParseRecord(records[i]).None? ==> LogOf(records[..i + 1]).None?
    ensures ParseRecord(records[i]).Some? ==> LogOf(records[..i + 1]) == Some(Put(log, ParseRecord(records[i]).value))
  {
    var prefix := records[..i + 1];
    assert prefix[..|prefix| - 1] == records[..i];
    assert prefix[|prefix| - 1] == records[i];
  }

  /** Once a record throws, so does every longer prefix of the records. */
  lemma {:induction false} LogFailsAfter(records: seq<string>, n: nat)
    requires n <= |records| && LogOf(records[..n]).None?
    ensures LogOf(records).None?
    decreases |records| - n
  {
    if n < |records| {
      assert records[..n + 1][..n] == records[..n];
      LogFailsAfter(records, n + 1);
    } else {
      assert records[..n] == records;
    }
  }

  /** A header line as git prints it: `Name: value`. */
  function HeaderLine(h: (string, string)): string {
    h.0 + ": " + h.1
  }

  /** A name `[A-Z][a-z]*` and a value of one line that does not start with white space. */
  predicate PlainHeader(h: (string, string)) {
    && |h.0| >= 1 && IsUpper(h.0[0]) && (forall k :: 1 <= k < |h.0| ==> IsLower(h.0[k]))
    && OneLine(h.1) && (h.1 == "" || !IsSpace(h.1[0]))
  }

  function HeaderLines(hs: seq<(string, string)>): (lines: seq<string>) {
    seq(|hs|, k requires 0 <= k < |hs| => HeaderLine(hs[k]))
  }

  /** The fields the parse makes of headers: each name lower-cased, in order. */
  function Lowered(hs: seq<(string, string)>): (fs: seq<(string, string)>)
    ensures |fs| == |hs|
    decreases |hs|
  {
    if hs == [] then [] else Lowered(hs[..|hs| - 1]) + [(ToLowerAscii(hs[|hs| - 1].0), hs[|hs| - 1].1)]
  }

  /** A record as git prints it: the commit line, the header lines, an empty
      line and the message. */
  function RecordText(sha: string, hs: seq<(string, string)>, message: string): string {
    CommitPrefix + sha + "\n" + JoinWith(HeaderLines(hs), "\n") + "\n\n" + message
  }

  /** No line of the message looks like a header line. */
  predicate NoHeaderLine(message: string) {
    forall k :: 0 <= k < |SplitOn(message, LineTerminators)| ==> HeaderColon(SplitOn(message, LineTerminators)[k]).None?
  }

  /** No two line feeds in a row. */
  predicate NoBlankLine(s: string) {
    forall k :: 0 <= k < |s| - 1 ==> !(s[k] == '\n' && s[k + 1] == '\n')
  }

  /** A record git prints is read back: the commit id, the lower-cased header
      names with their values, and the trimmed message. */
  lemma RecordRoundTrip(sha: string, hs: seq<(string, string)>, message: string)
    requires |sha| == 40 && Hex40At(sha, 0)
    requires |hs| >= 1 && forall k :: 0 <= k < |hs| ==> PlainHeader(hs[k])
    requires NoHeaderLine(message)
    ensures ParseRecord(RecordText(sha, hs, message)) == Some(LogEntry(sha, FieldsOf(Trim(message), Lowered(hs))))
  {
    CommitLine(sha, hs, message);
    RecordMessage(sha, hs, message);
    RecordLines(sha, hs, message);
    RecordHeaders(sha, hs, message);
  }

  /** A header of a record git prints is read under its lower-cased name, unless
      a later header has the same name (as `data[sha].author` is read). */
  lemma HeaderValueRead(sha: string, hs: seq<(string, string)>, message: string, i: nat)
    requires |sha| == 40 && Hex40At(sha, 0)
    requires |hs| >= 1 && forall k :: 0 <= k < |hs| ==> PlainHeader(hs[k])
    requires NoHeaderLine(message)
    requires i < |hs| && forall k :: i < k < |hs| ==> ToLowerAscii(hs[k].0) != ToLowerAscii(hs[i].0)
    ensures var r := ParseRecord(RecordText(sha, hs, message));
      r.Some? && r.value.commit == sha
      && ToLowerAscii(hs[i].0) in r.value.fields && r.value.fields[ToLowerAscii(hs[i].0)] == hs[i].1
  {
    RecordRoundTrip(sha, hs, message);
    var fs := Lowered(hs);
    LoweredAt(hs, i);
    forall k | i < k < |fs| ensures fs[k].0 != fs[i].0 {
      LoweredAt(hs, k);
    }
    LaterFieldWins(Trim(message), fs, i);
  }

  lemma {:induction false} LoweredAt(hs: seq<(string, string)>, k: nat)
    requires k < |hs|
    ensures Lowered(hs)[k] == (ToLowerAscii(hs[k].0), hs[k].1)
    decreases |hs|
  {
    if k < |hs| - 1 {
      LoweredAt(hs[..|hs| - 1], k);
    }
  }

  /** The record starts with `commit <sha>`. */
  lemma CommitLine(sha: string, hs: seq<(string, string)>, message: string)
    requires |sha| == 40 && Hex40At(sha, 0)
    ensures var entry := RecordText(sha, hs, message);
      HasCommit(entry) && entry[7..47] == sha
  {
    var entry := RecordText(sha, hs, message);
    var rest := "\n" + JoinWith(HeaderLines(hs), "\n") + "\n\n" + message;
    assert entry == CommitPrefix + sha + rest;
    assert entry[..7] == CommitPrefix;
    assert entry[7..47] == sha;
    forall k | 7 <= k < 47 ensures IsLowerHex(entry[k]) {
      assert entry[k] == sha[k - 7];
    }
  }

  /** The first empty line of the record is the one before the message. */
  lemma RecordMessage(sha: string, hs: seq<(string, string)>, message: string)
    requires |sha| == 40 && Hex40At(sha, 0)
    requires |hs| >= 1 && forall k :: 0 <= k < |hs| ==> PlainHeader(hs[k])
    ensures var entry := RecordText(sha, hs, message);
      var m := Find(entry, "\n\n", 0);
      m < |entry| && MessageOf(entry, m) == Trim(message)
  {
    var entry := RecordText(sha, hs, message);
    var lines := [CommitPrefix + sha] + HeaderLines(hs);
    CommitLineOneLine(sha);
    HeaderLinesOneLine(hs);
    var a := JoinWith(lines, "\n");
    assert lines[1..] == HeaderLines(hs);
    assert a == CommitPrefix + sha + "\n" + JoinWith(HeaderLines(hs), "\n");
    JoinNoBlank(lines);
    assert entry == a + "\n\n" + message;
    FirstBlankLine(a, message);
    assert entry[|a| + 2..] == message;
  }

  /** The record's lines are the commit line, the header lines, the empty line
      and the lines of the message. */
  lemma RecordLines(sha: string, hs: seq<(string, string)>, message: string)
    requires |sha| == 40 && Hex40At(sha, 0)
    requires |hs| >= 1 && forall k :: 0 <= k < |hs| ==> PlainHeader(hs[k])
    ensures SplitOn(RecordText(sha, hs, message), LineTerminators)
         == [CommitPrefix + sha] + HeaderLines(hs) + ([""] + SplitOn(message, LineTerminators))
  {
    var c := CommitPrefix + sha;
    var hl := HeaderLines(hs);
    var j := JoinWith(hl, "\n");
    var rest := ['\n'] + message;
    assert rest[1..] == message;
    var body := j + ['\n'] + rest;
    assert RecordText(sha, hs, message) == c + ['\n'] + body;
    CommitLineOneLine(sha);
    SplitFree(c, LineTerminators);
    HeaderLinesOneLine(hs);
    SplitJoin(hl, '\n', LineTerminators);
    SplitAppend(j, '\n', rest, LineTerminators);
    SplitAppend(c, '\n', body, LineTerminators);
  }

  /** Of the record's lines only the header lines are header lines. */
  lemma RecordHeaders(sha: string, hs: seq<(string, string)>, message: string)
    requires |sha| == 40 && Hex40At(sha, 0)
    requires |hs| >= 1 && forall k :: 0 <= k < |hs| ==> PlainHeader(hs[k])
    requires NoHeaderLine(message)
    ensures HeadersOf([CommitPrefix + sha] + HeaderLines(hs) + ([""] + SplitOn(message, LineTerminators))) == Lowered(hs)
  {
    CommitAndHeaderFields(sha, hs);
    BlankAndMessageFields(message);
    HeadersOfAppend([CommitPrefix + sha] + HeaderLines(hs), [""] + SplitOn(message, LineTerminators));
  }

  /** The commit line has no field, the header lines have theirs. */
  lemma CommitAndHeaderFields(sha: string, hs: seq<(string, string)>)
    requires forall k :: 0 <= k < |hs| ==> PlainHeader(hs[k])
    ensures HeadersOf([CommitPrefix + sha] + HeaderLines(hs)) == Lowered(hs)
  {
    var c := CommitPrefix + sha;
    HeadersOfAppend([c], HeaderLines(hs));
    assert [c][..0] == [];
    HeadersOfLines(hs);
  }

  /** Neither the empty line nor, by `NoHeaderLine`, the message has a field. */
  lemma BlankAndMessageFields(message: string)
    requires NoHeaderLine(message)
    ensures HeadersOf([""] + SplitOn(message, LineTerminators)) == []
  {
    var msgLines := SplitOn(message, LineTerminators);
    HeadersOfAppend([""], msgLines);
    assert [""][..0] == [];
    NoHeaders(msgLines);
  }

  /** The commit line holds no line terminator. */
  lemma CommitLineOneLine(sha: string)
    requires |sha| == 40 && Hex40At(sha, 0)
    ensures |CommitPrefix + sha| > 0 && OneLine(CommitPrefix + sha)
  {
    var c := CommitPrefix + sha;
    forall k | 0 <= k < |c| ensures c[k] !in LineTerminators {
      if k >= 7 {
        assert c[k] == sha[k - 7];
      }
    }
  }

  /** No header line holds a line terminator, and none is empty. */
  lemma HeaderLinesOneLine(hs: seq<(string, string)>)
    requires forall k :: 0 <= k < |hs| ==> PlainHeader(hs[k])
    ensures SeparatorFree(HeaderLines(hs), LineTerminators)
    ensures forall k :: 0 <= k < |hs| ==> HeaderLines(hs)[k] != [] && OneLine(HeaderLines(hs)[k])
  {
    forall k | 0 <= k < |hs| ensures HeaderLines(hs)[k] != [] && OneLine(HeaderLines(hs)[k]) {
      HeaderLineOneLine(hs[k]);
    }
  }

  lemma HeaderLineOneLine(h: (string, string))
    requires PlainHeader(h)
    ensures HeaderLine(h) != [] && OneLine(HeaderLine(h))
  {
    var line := HeaderLine(h);
    forall k | 0 <= k < |line| ensures line[k] !in LineTerminators {
      if k < |h.0| {
        assert line[k] == h.0[k];
      } else if k >= |h.0| + 2 {
        assert line[k] == h.1[k - |h.0| - 2];
      }
    }
  }

  /** Joining non-empty lines with line feeds makes no empty line, and neither
      starts nor ends with a line feed. */
  lemma {:induction false} JoinNoBlank(lines: seq<string>)
    requires |lines| >= 1 && forall k :: 0 <= k < |lines| ==> lines[k] != [] && OneLine(lines[k])
    ensures var s := JoinWith(lines, "\n");
      s != [] && s[0] != '\n' && s[|s| - 1] != '\n' && NoBlankLine(s)
    decreases |lines|
  {
    var p := lines[0];
    assert p[0] !in LineTerminators;
    if |lines| == 1 {
      assert p[|p| - 1] !in LineTerminators;
    } else {
      var tail := lines[1..];
      assert forall k :: 0 <= k < |tail| ==> tail[k] == lines[k + 1];
      JoinNoBlank(tail);
      var t := JoinWith(tail, "\n");
      var s := JoinWith(lines, "\n");
      assert s == p + "\n" + t;
      forall k | 0 <= k < |s| - 1 ensures !(s[k] == '\n' && s[k + 1] == '\n') {
        if k < |p| {
          assert s[k] == p[k];
        } else if k > |p| {
          assert s[k] == t[k - |p| - 1] && s[k + 1] == t[k - |p|];
        }
      }
    }
  }

  /** In `a + "\n\n" + rest`, with `a` free of empty lines and not ending a line,
      the first empty line is at the end of `a`. */
  lemma FirstBlankLine(a: string, rest: string)
    requires a != [] && a[|a| - 1] != '\n' && NoBlankLine(a)
    ensures Find(a + "\n\n" + rest, "\n\n", 0) == |a|
  {
    var s := a + "\n\n" + rest;
    var m := Find(s, "\n\n", 0);
    assert StartsAt(s, |a|, "\n\n") by {
      assert s[|a|..|a| + 2] == "\n\n";
    }
    forall k | 0 <= k < |a| ensures !StartsAt(s, k, "\n\n") {
      assert s[k..k + 2] == [s[k], s[k + 1]];
      assert s[k] == a[k];
      if k < |a| - 1 {
        assert s[k + 1] == a[k + 1];
      }
    }
  }

  /** The header fields of concatenated lines are those of each part, in order. */
  lemma {:induction false} HeadersOfAppend(xs: seq<string>, ys: seq<string>)
    ensures HeadersOf(xs + ys) == HeadersOf(xs) + HeadersOf(ys)
    decreases |ys|
  {
    if ys == [] {
      assert xs + ys == xs;
    } else {
      var init := ys[..|ys| - 1];
      assert (xs + ys)[..|xs + ys| - 1] == xs + init;
      assert (xs + ys)[|xs + ys| - 1] == ys[|ys| - 1];
      HeadersOfAppend(xs, init);
    }
  }

  /** Lines none of which is a header line have no header fields. */
  lemma {:induction false} NoHeaders(lines: seq<string>)
    requires forall k :: 0 <= k < |lines| ==> HeaderColon(lines[k]).None?
    ensures HeadersOf(lines) == []
    decreases |lines|
  {
    if lines != [] {
      NoHeaders(lines[..|lines| - 1]);
    }
  }

  /** The header lines git prints are read back as the lower-cased fields. */
  lemma {:induction false} HeadersOfLines(hs: seq<(string, string)>)
    requires forall k :: 0 <= k < |hs| ==> PlainHeader(hs[k])
    ensures HeadersOf(HeaderLines(hs)) == Lowered(hs)
    decreases |hs|
  {
    if hs != [] {
      var init := hs[..|hs| - 1];
      var h := hs[|hs| - 1];
      var prefix := HeaderLines(init);
      assert HeaderLines(hs) == prefix + [HeaderLine(h)];
      HeadersOfLines(init);
      LastHeaderLine(prefix, h);
    }
  }

  /** One more header line adds its field. */
  lemma LastHeaderLine(prefix: seq<string>, h: (string, string))
    requires PlainHeader(h)
    ensures HeadersOf(prefix + [HeaderLine(h)]) == HeadersOf(prefix) + [(ToLowerAscii(h.0), h.1)]
  {
    var lines := prefix + [HeaderLine(h)];
    assert lines[..|lines| - 1] == prefix;
    HeaderLineRead(h);
  }

  /** A header line `Name: value` is read as its lower-cased name and its value. */
  lemma HeaderLineRead(h: (string, string))
    requires PlainHeader(h)
    ensures HeaderColon(HeaderLine(h)) == Some(|h.0|)
    ensures HeaderField(HeaderLine(h), |h.0|) == (ToLowerAscii(h.0), h.1)
  {
    assert HeaderLine(h) == h.0 + ":" + " " + h.1;
    HeaderLineRoundTrip(h.0, " ", h.1);
  }
}
