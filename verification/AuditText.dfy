/** The audit log as the text of its file: one printed entry a line. */
module AuditText {
  import opened Prelude
  import opened Json
  import opened Dictionaries
  import opened Printed
  import opened Reading
  import opened Sources
  import opened Audit
  import opened AuditLog

  // ---------- reading ----------

  /** What counts as white space when a line is stripped. */
  predicate Space(c: char) {
    var n := c as int;
    || 9 <= n <= 13 || 28 <= n <= 32 || n == 0x85 || n == 0xA0 || n == 0x1680 || 0x2000 <= n <= 0x200A
    || n == 0x2028 || n == 0x2029 || n == 0x202F || n == 0x205F || n == 0x3000
  }

  /** Nothing is left of the line when it is stripped. */
  predicate Empty(line: string) {
    forall i :: 0 <= i < |line| ==> Space(line[i])
  }

  function ReadLine(loads: Loads, line: string): (l: Line) {
    if Empty(line) then Blank
    else
      match loads(Text(line))
      case Some(Obj(fields)) => Record(fields)
      case _ => Unreadable
  }

  /** The first line of a text, and what follows its line break. */
  function FirstLine(text: string): (line: string) {
    if text == [] || text[0] == '\n' then [] else [text[0]] + FirstLine(text[1..])
  }

  function AfterLine(text: string): (rest: string)
    ensures text != [] ==> |rest| < |text|
  {
    if text == [] then [] else if text[0] == '\n' then text[1..] else AfterLine(text[1..])
  }

  /** What reading the file line by line yields. */
  function Read(loads: Loads, text: string): (lines: seq<Line>)
    decreases |text|
  {
    if text == [] then [] else [ReadLine(loads, FirstLine(text))] + Read(loads, AfterLine(text))
  }

  // ---------- writing ----------

  predicate OneLine(line: string) {
    forall i :: 0 <= i < |line| ==> line[i] != '\n'
  }

  /** The file ends where a line ends. */
  predicate Complete(text: string) {
    text == [] || text[|text| - 1] == '\n'
  }

  /** What record() writes. */
  function LineOf(e: Entry): (line: string) {
    Print(Obj(e)) + ['\n']
  }

  /** A printed entry has no line break and is not blank. */
  lemma PrintedOnOneLine(e: Entry)
    ensures OneLine(Print(Obj(e))) && !Empty(Print(Obj(e)))
  {
    PrintVisible(Obj(e));
    assert Print(Obj(e))[0] == '{';
  }

  lemma {:induction false} LastLineSplits(line: string)
    requires OneLine(line)
    ensures FirstLine(line + ['\n']) == line && AfterLine(line + ['\n']) == []
  {
    if line != [] {
      LastLineSplits(line[1..]);
      assert (line + ['\n'])[1..] == line[1..] + ['\n'];
    }
  }

  /** Text added behind a line break does not touch the first line. */
  lemma {:induction false} FirstLineStays(text: string, more: string)
    requires !OneLine(text)
    ensures FirstLine(text + more) == FirstLine(text) && AfterLine(text + more) == AfterLine(text) + more
    ensures Complete(AfterLine(text)) <==> Complete(text)
  {
    assert (text + more)[1..] == text[1..] + more;
    if text[0] != '\n' {
      FirstLineStays(text[1..], more);
    }
  }

  lemma {:induction false} ReadAppended(loads: Loads, text: string, line: string)
    requires Complete(text) && OneLine(line)
    ensures Read(loads, text + (line + ['\n'])) == Read(loads, text) + [ReadLine(loads, line)]
    decreases |text|
  {
    if text == [] {
      LastLineSplits(line);
      assert text + (line + ['\n']) == line + ['\n'];
    } else {
      assert text[|text| - 1] == '\n';
      FirstLineStays(text, line + ['\n']);
      ReadAppended(loads, AfterLine(text), line);
    }
  }

  lemma EntryReadsBack(loads: Loads, e: Entry)
    requires Readable(loads, Obj(e))
    ensures ReadLine(loads, Print(Obj(e))) == Record(e)
  {
    PrintedOnOneLine(e);
  }

  lemma {:induction false} OnlyLine(loads: Loads, line: string)
    requires OneLine(line)
    ensures |Read(loads, line)| == if line == [] then 0 else 1
    ensures FirstLine(line) == line && AfterLine(line) == []
  {
    if line != [] {
      OnlyLine(loads, line[1..]);
    }
  }

  /** Behind an unfinished line a new line is no line of its own. */
  lemma {:induction false} UnfinishedSwallows(loads: Loads, text: string, line: string)
    requires !Complete(text) && OneLine(line)
    ensures |Read(loads, text + (line + ['\n']))| == |Read(loads, text)|
    decreases |text|
  {
    if OneLine(text) {
      assert text + (line + ['\n']) == (text + line) + ['\n'];
      LastLineSplits(text + line);
      OnlyLine(loads, text);
    } else {
      FirstLineStays(text, line + ['\n']);
      UnfinishedSwallows(loads, AfterLine(text), line);
    }
  }

  /** What is written behind a text is read back as one more entry if and only if the text does not
      break off inside a line. */
  lemma EntryReadBackExact(loads: Loads, text: string, e: Entry)
    requires Readable(loads, Obj(e))
    ensures Read(loads, text + LineOf(e)) == Read(loads, text) + [Record(e)] <==> Complete(text)
  {
    PrintedOnOneLine(e);
    if Complete(text) {
      EntryReadsBack(loads, e);
      ReadAppended(loads, text, Print(Obj(e)));
    } else {
      UnfinishedSwallows(loads, text, Print(Obj(e)));
    }
  }

  // ---------- the log as text and as lines ----------

  /** The details and the time stamp of a record can be read back. */
  predicate RecordReadable(loads: Loads, a: Args) {
    Readable(loads, Obj(a.details)) && Kept(loads, a.ts)
  }

  lemma HeaderProper(caller: string, seqNo: int, a: Args)
    requires ProperFields(a.details)
    ensures ProperFields(Header(caller, seqNo, a))
  {
    RedactProper(Obj(a.details));
    AllProper(Header(caller, seqNo, a));
  }

  /** A recorded entry is a dictionary if its details are one. */
  lemma NewEntryProper(dig: Digest, caller: string, prev: string, seqNo: int, a: Args)
    requires ProperFields(a.details)
    ensures ProperFields(NewEntry(dig, caller, prev, seqNo, a))
  {
    var head, fs := Header(caller, seqNo, a), Unhashed(caller, prev, seqNo, a);
    HeaderProper(caller, seqNo, a);
    GetAbsent(head, "prev_hash");
    ProperAppend(head, Field("prev_hash", Str(prev)));
    GetAbsent(fs, "hash");
    ProperAppend(fs, Field("hash", Str(dig(Message(prev, fs)))));
  }

  lemma HeaderKept(loads: Loads, caller: string, seqNo: int, a: Args)
    requires FieldsKept(loads, a.details) && Kept(loads, a.ts)
    ensures FieldsKept(loads, Header(caller, seqNo, a))
  {
    RedactKept(loads, Obj(a.details));
    AllKept(loads, Header(caller, seqNo, a));
  }

  /** A recorded entry can be read back if its details and its time stamp can. */
  lemma NewEntryReadable(loads: Loads, dig: Digest, caller: string, prev: string, seqNo: int, a: Args)
    requires RecordReadable(loads, a)
    ensures Readable(loads, Obj(NewEntry(dig, caller, prev, seqNo, a)))
  {
    var fs := Unhashed(caller, prev, seqNo, a);
    NewEntryProper(dig, caller, prev, seqNo, a);
    HeaderKept(loads, caller, seqNo, a);
    KeptAppend(loads, Header(caller, seqNo, a), Field("prev_hash", Str(prev)));
    KeptAppend(loads, fs, Field("hash", Str(dig(Message(prev, fs)))));
  }

  /** The text of the file after one record() by a logger that has it open. */
  function Written(env: Env, loads: Loads, caller: string, text: string, a: Args): (text': string) {
    match Resume(env, Read(loads, text))
    case None => text
    case Some(p) => text + LineOf(NewEntry(env.dig, caller, p.prev, p.seqNo, a))
  }

  /** text is the complete text of the log with these lines. */
  ghost predicate TextOf(loads: Loads, text: string, lines: seq<Line>) {
    Complete(text) && Read(loads, text) == lines
  }

  /** Writing the text of an entry is what recording does to the lines of the log. */
  lemma WrittenIsAppended(env: Env, loads: Loads, caller: string, text: string, lines: seq<Line>, a: Args)
    requires TextOf(loads, text, lines) && RecordReadable(loads, a)
    ensures TextOf(loads, Written(env, loads, caller, text, a), Appended(env, caller, lines, a))
  {
    match Resume(env, lines)
    case None =>
    case Some(p) =>
      NewEntryReadable(loads, env.dig, caller, p.prev, p.seqNo, a);
      EntryReadBackExact(loads, text, NewEntry(env.dig, caller, p.prev, p.seqNo, a));
  }

  /** The text of the file reads as the log with the entry recorded if and only if the file does not break
      off inside a line, or the logger could not open it. */
  lemma WrittenExact(env: Env, loads: Loads, caller: string, text: string, a: Args)
    requires RecordReadable(loads, a)
    ensures var lines := Read(loads, text);
      Read(loads, Written(env, loads, caller, text, a)) == Appended(env, caller, lines, a)
      <==> Complete(text) || Resume(env, lines).None?
  {
    match Resume(env, Read(loads, text))
    case None =>
    case Some(p) =>
      NewEntryReadable(loads, env.dig, caller, p.prev, p.seqNo, a);
      EntryReadBackExact(loads, text, NewEntry(env.dig, caller, p.prev, p.seqNo, a));
  }

  /** A file that ends with a whole entry, but without its line break, can be opened, and then swallows what
      is recorded next: it still has one line. */
  lemma WholeEntrySwallows(env: Env, loads: Loads, caller: string, a: Args)
    requires RecordReadable(loads, a)
    ensures var e := NewEntry(env.dig, caller, GENESIS, 0, a);
      var text := Print(Obj(e));
      && !Complete(text) && Read(loads, text) == [Record(e)] && Resume(env, [Record(e)]).Some?
      && |Read(loads, Written(env, loads, caller, text, a))| == 1
  {
    var e := NewEntry(env.dig, caller, GENESIS, 0, a);
    var text := Print(Obj(e));
    NewEntryReadable(loads, env.dig, caller, GENESIS, 0, a);
    OnlyLineReads(loads, e);
    NewEntryResumes(env, caller, GENESIS, 0, a);
    var p := ResumeAt(env, Record(e)).value;
    WrittenBehind(env, loads, caller, text, [Record(e)], p, a);
  }

  lemma OnlyLineReads(loads: Loads, e: Entry)
    requires Readable(loads, Obj(e))
    ensures !Complete(Print(Obj(e))) && Read(loads, Print(Obj(e))) == [Record(e)]
  {
    PrintedOnOneLine(e);
    OnlyLine(loads, Print(Obj(e)));
    EntryReadsBack(loads, e);
  }

  lemma WrittenBehind(env: Env, loads: Loads, caller: string, text: string, lines: seq<Line>, p: Position, a: Args)
    requires !Complete(text) && Read(loads, text) == lines && Resume(env, lines) == Some(p)
    ensures |Read(loads, Written(env, loads, caller, text, a))| == |lines|
  {
    var e := NewEntry(env.dig, caller, p.prev, p.seqNo, a);
    PrintedOnOneLine(e);
    UnfinishedSwallows(loads, text, Print(Obj(e)));
  }

  function TextAfterRecords(env: Env, loads: Loads, text: string, s: Session, k: nat): (text': string)
    requires k <= |s.records|
    decreases k
  {
    if k == 0 then text
    else Written(env, loads, s.caller, TextAfterRecords(env, loads, text, s, k - 1), s.records[k - 1])
  }

  function TextAfterSessions(env: Env, loads: Loads, text: string, ss: seq<Session>): (text': string)
    decreases |ss|
  {
    if ss == [] then text
    else
      var s := ss[|ss| - 1];
      TextAfterRecords(env, loads, TextAfterSessions(env, loads, text, ss[..|ss| - 1]), s, |s.records|)
  }

  ghost predicate SessionReadable(loads: Loads, s: Session) {
    forall i :: 0 <= i < |s.records| ==> RecordReadable(loads, s.records[i])
  }

  /** The text written by the first k records reads as the lines that they append. */
  ghost predicate WrittenSoFar(env: Env, loads: Loads, text: string, s: Session, k: nat)
    requires k <= |s.records|
  {
    TextOf(loads, TextAfterRecords(env, loads, text, s, k), AfterRecords(env, Read(loads, text), s, k))
  }

  lemma RecordWritten(env: Env, loads: Loads, text: string, s: Session, k: nat)
    requires k < |s.records| && RecordReadable(loads, s.records[k]) && WrittenSoFar(env, loads, text, s, k)
    ensures WrittenSoFar(env, loads, text, s, k + 1)
  {
    WrittenIsAppended(env, loads, s.caller, TextAfterRecords(env, loads, text, s, k),
                      AfterRecords(env, Read(loads, text), s, k), s.records[k]);
  }

  lemma RecordsWritten(env: Env, loads: Loads, text: string, s: Session)
    requires Complete(text) && SessionReadable(loads, s)
    ensures WrittenSoFar(env, loads, text, s, |s.records|)
  {
    for k := 0 to |s.records|
      invariant WrittenSoFar(env, loads, text, s, k)
    {
      RecordWritten(env, loads, text, s, k);
    }
  }

  /** Over any number of sessions the text of the file reads as the lines of the log. */
  lemma {:induction false} SessionsWritten(env: Env, loads: Loads, text: string, ss: seq<Session>)
    requires Complete(text) && forall i :: 0 <= i < |ss| ==> SessionReadable(loads, ss[i])
    ensures TextOf(loads, TextAfterSessions(env, loads, text, ss), AfterSessions(env, Read(loads, text), ss))
    decreases |ss|
  {
    if ss != [] {
      var front, s := ss[..|ss| - 1], ss[|ss| - 1];
      SessionsWritten(env, loads, text, front);
      RecordsWritten(env, loads, TextAfterSessions(env, loads, text, front), s);
    }
  }

  /** So verification, run on the text of a file that started out empty, accepts it. */
  method FreshFileAccepted(env: Env, loads: Loads, text: string, ghost ss: seq<Session>) returns (v: Verdict)
    requires forall i :: 0 <= i < |ss| ==> SessionReadable(loads, ss[i])
    requires text == TextAfterSessions(env, loads, [], ss)
    ensures v == Ok && |Entries(Read(loads, text))| == RecordsIn(ss)
  {
    SessionsWritten(env, loads, [], ss);
    FreshLogGood(env, ss);
    v := VerifyChain(env.dig, Read(loads, text));
  }
}
