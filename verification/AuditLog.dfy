/** Writing the audit log: record, and recovery when a log is reopened. */
module AuditLog {
  import opened Prelude
  import opened Json
  import opened Redaction
  import opened Folding
  import opened Audit

  /** A time stamp as json writes it. */
  type Stamp = s: string | FloatRepr(s) witness StampExample()

  function StampExample(): (s: string)
    ensures FloatRepr(s)
  {
    var s := "0.0";
    assert s[1] == '.';
    s
  }

  /** The arguments of record(); missing details are the empty dictionary. */
  datatype Args = Args(ts: Stamp, tool: string, action: string, result: string, details: Entry)

  lemma {:induction false} BodyWithoutHash(fs: seq<Field>, h: Json)
    requires forall i :: 0 <= i < |fs| ==> fs[i].key != "hash"
    ensures Body(fs) == fs && Body(fs + [Field("hash", h)]) == fs
    ensures Get(fs + [Field("hash", h)], "hash") == Some(h)
  {
    if fs == [] {
    } else {
      BodyWithoutHash(fs[1..], h);
      assert (fs + [Field("hash", h)])[1..] == fs[1..] + [Field("hash", h)];
    }
  }

  /** The items of an entry up to the details. */
  function Header(caller: string, seqNo: int, a: Args): (fs: seq<Field>) {
    [Field("seq", Int(seqNo)), Field("ts", Float(a.ts)), Field("caller_id", Str(caller)),
     Field("tool", Str(a.tool)), Field("action", Str(a.action)), Field("result", Str(a.result)),
     Field("details", Redact(Obj(a.details)))]
  }

  lemma HeaderPrintable(caller: string, seqNo: int, a: Args)
    ensures PrintableFields(Header(caller, seqNo, a))
  {
    RedactClean(Obj(a.details));
    AllPrintable(Header(caller, seqNo, a));
  }

  function Unhashed(caller: string, prev: string, seqNo: int, a: Args): (fs: seq<Field>)
    ensures forall i :: 0 <= i < |fs| ==> fs[i].key != "hash"
  {
    Header(caller, seqNo, a) + [Field("prev_hash", Str(prev))]
  }

  function DigestOf(dig: Digest, caller: string, prev: string, seqNo: int, a: Args): (h: string) {
    dig(Message(prev, Unhashed(caller, prev, seqNo, a)))
  }

  /** The entry that record() writes after an entry with hash prev. */
  function NewEntry(dig: Digest, caller: string, prev: string, seqNo: int, a: Args): (e: Entry) {
    HeaderPrintable(caller, seqNo, a);
    PrintableAppend(Header(caller, seqNo, a), Field("prev_hash", Str(prev)));
    var fs := Unhashed(caller, prev, seqNo, a);
    var h := Field("hash", Str(dig(Message(prev, fs))));
    PrintableAppend(fs, h);
    fs + [h]
  }

  /** It carries its index, the hash before it and its own hash. */
  lemma NewEntryLinks(dig: Digest, caller: string, prev: string, seqNo: nat, a: Args)
    ensures var e := NewEntry(dig, caller, prev, seqNo, a);
      && SeqOk(e, seqNo) && PrevOk(e, prev) && HashOk(dig, e, prev)
      && Get(e, "seq") == Some(Int(seqNo))
  {
    var head, fs := Header(caller, seqNo, a), Unhashed(caller, prev, seqNo, a);
    var h := Field("hash", Str(dig(Message(prev, fs))));
    BodyWithoutHash(fs, h.value);
    assert NewEntry(dig, caller, prev, seqNo, a)[0] == Field("seq", Int(seqNo));
    GetAbsent(head, "prev_hash");
    GetAppend(head, Field("prev_hash", Str(prev)), "prev_hash");
    GetAppend(fs, h, "prev_hash");
  }

  /** It says what was recorded. */
  lemma NewEntryResult(dig: Digest, caller: string, prev: string, seqNo: int, a: Args)
    ensures Get(NewEntry(dig, caller, prev, seqNo, a), "result") == Some(Str(a.result))
  {
    var head, fs := Header(caller, seqNo, a), Unhashed(caller, prev, seqNo, a);
    assert head == head[..5] + [head[5]] + [head[6]];
    GetAbsent(head[..5], "result");
    GetAppend(head[..5], head[5], "result");
    GetAppend(head[..5] + [head[5]], head[6], "result");
    GetAppend(head, Field("prev_hash", Str(prev)), "result");
    GetAppend(fs, Field("hash", Str(dig(Message(prev, fs)))), "result");
  }

  // ---------- recovery ----------

  datatype Position = Position(prev: string, seqNo: int)

  /** What the log is written with: the digest, and where str() and int() leave a logger that finds a last
      entry whose hash is not a string or whose number is not an integer. */
  datatype Env = Env(dig: Digest, unusual: Option<Position>)

  /** The last line that is not blank. */
  function LastLine(lines: seq<Line>): (l: Line) {
    if lines == [] then Blank
    else if lines[|lines| - 1].Blank? then LastLine(lines[..|lines| - 1])
    else lines[|lines| - 1]
  }

  function ResumeAt(env: Env, l: Line): (r: Option<Position>) {
    match l
    case Blank => Some(Position(GENESIS, 0))
    case Unreadable => None
    case Record(e) =>
      match (Get(e, "hash"), Get(e, "seq"))
      case (Some(h), Some(n)) => Behind(env.unusual, h, n)
      case _ => None
  }

  /** The position behind an entry with this hash and this number. */
  function Behind(unusual: Option<Position>, hash: Json, seqNo: Json): (r: Option<Position>) {
    if hash.Str? && IntegerOf(Some(seqNo)).Some? then Some(Position(hash.s, IntegerOf(Some(seqNo)).value + 1))
    else if seqNo.Null? || seqNo.Arr? || seqNo.Obj? then None
    else unusual
  }

  /** Where a logger that opens the file goes on; None stands for an exception. */
  function Resume(env: Env, lines: seq<Line>): (r: Option<Position>) {
    ResumeAt(env, LastLine(lines))
  }

  method Recover(env: Env, lines: seq<Line>) returns (r: Option<Position>)
    ensures r == Resume(env, lines)
  {
    var lastLine := Blank;
    for i := 0 to |lines|
      invariant lastLine == LastLine(lines[..i])
    {
      assert lines[..i + 1][..i] == lines[..i];
      if !lines[i].Blank? {
        lastLine := lines[i];
      }
    }
    assert lines[..|lines|] == lines;
    return ResumeAt(env, lastLine);
  }

  lemma {:induction false} LastLineEntries(lines: seq<Line>)
    requires forall i :: 0 <= i < |lines| ==> !lines[i].Unreadable?
    ensures var es := Entries(lines);
      LastLine(lines) == if es == [] then Blank else Record(es[|es| - 1])
  {
    if lines != [] {
      LastLineEntries(lines[..|lines| - 1]);
    }
  }

  /** A good log is always resumed at its end. */
  lemma GoodResumes(env: Env, lines: seq<Line>)
    requires Good(env.dig, lines)
    ensures var es := Entries(lines); Resume(env, lines) == Some(Position(PrevOf(es, |es|), |es|))
  {
    LastLineEntries(lines);
    ChainResumes(env, lines, Entries(lines));
  }

  lemma ChainResumes(env: Env, lines: seq<Line>, es: seq<Entry>)
    requires Intact(env.dig, es) && LastLine(lines) == if es == [] then Blank else Record(es[|es| - 1])
    ensures Resume(env, lines) == Some(Position(PrevOf(es, |es|), |es|))
  {
    if es != [] {
      LinkedFields(env.dig, es, |es| - 1);
      EntryResumes(env, es[|es| - 1], |es| - 1, HashOf(es[|es| - 1]));
    }
  }

  lemma LinkedFields(dig: Digest, es: seq<Entry>, i: nat)
    requires Intact(dig, es) && i < |es|
    ensures IntegerOf(Get(es[i], "seq")) == Some(i) && Get(es[i], "hash") == Some(Str(HashOf(es[i])))
  {
    assert Linked(dig, es, i);
  }

  lemma EntryResumes(env: Env, e: Entry, seqNo: int, hash: string)
    requires IntegerOf(Get(e, "seq")) == Some(seqNo) && Get(e, "hash") == Some(Str(hash))
    ensures ResumeAt(env, Record(e)) == Some(Position(hash, seqNo + 1))
  {
  }

  // ---------- the logger ----------

  class LogFile {
    var lines: seq<Line>

    constructor ()
      ensures lines == []
    {
      lines := [];
    }
  }

  /** Where a file goes on that recording has turned from `start` into `lines`; None if it has not. */
  ghost function Reached(env: Env, start: seq<Line>, s: Session, lines: seq<Line>): (r: Option<Position>) {
    if lines == AfterRecords(env, start, s, |s.records|) then Resume(env, lines) else None
  }

  class AuditLogger {
    const file: LogFile
    const env: Env
    const callerId: string
    var prevHash: string
    var seqNo: int
    ghost const start: seq<Line>  // the file when it was opened
    ghost var recorded: seq<Args>  // what has been recorded since

    /** The cached position is where the file ends, and the file is what recording has made of it. */
    ghost predicate Valid()
      reads this, file
    {
      Reached(env, start, Session(callerId, recorded), file.lines) == Some(Position(prevHash, seqNo))
    }

    constructor (file: LogFile, callerId: string, env: Env, p: Position)
      requires Resume(env, file.lines) == Some(p)
      ensures Valid() && this.file == file && this.callerId == callerId && this.env == env
      ensures start == file.lines && recorded == []
    {
      this.file := file;
      this.callerId := callerId;
      this.env := env;
      this.prevHash := p.prev;
      this.seqNo := p.seqNo;
      this.start := file.lines;
      this.recorded := [];
    }

    static method Open(file: LogFile, callerId: string, env: Env) returns (r: Option<AuditLogger>)
      ensures r.None? <==> Resume(env, file.lines) == None
      ensures r.Some? ==>
        && fresh(r.value) && r.value.Valid() && r.value.file == file
        && r.value.callerId == callerId && r.value.env == env
        && r.value.start == file.lines && r.value.recorded == []
    {
      var p := Recover(env, file.lines);
      if p.None? {
        return None;
      }
      var l := new AuditLogger(file, callerId, env, p.value);
      return Some(l);
    }

    method Append(a: Args)
      requires Valid()
      modifies this, file
      ensures Valid() && recorded == old(recorded) + [a]
      ensures file.lines == old(file.lines) + [Record(NewEntry(env.dig, callerId, old(prevHash), old(seqNo), a))]
    {
      AppendKeeps(env, start, callerId, recorded, file.lines, prevHash, seqNo, a);
      var entry := NewEntry(env.dig, callerId, prevHash, seqNo, a);
      var digest := DigestOf(env.dig, callerId, prevHash, seqNo, a);
      Write(Record(entry), digest, a);
    }

    /** Writes a line that continues the file, and goes on behind it. */
    method Write(l: Line, digest: string, ghost a: Args)
      requires Reached(env, start, Session(callerId, recorded + [a]), file.lines + [l])
            == Some(Position(digest, seqNo + 1))
      modifies this, file
      ensures Valid() && recorded == old(recorded) + [a]
      ensures file.lines == old(file.lines) + [l]
    {
      file.lines := file.lines + [l];
      prevHash := digest;
      seqNo := seqNo + 1;
      recorded := recorded + [a];
    }
  }

  /** What one record() does to the file and to the place where it ends. */
  lemma AppendKeeps(env: Env, start: seq<Line>, caller: string, recorded: seq<Args>, lines: seq<Line>,
                    prev: string, seqNo: int, a: Args)
    requires Reached(env, start, Session(caller, recorded), lines) == Some(Position(prev, seqNo))
    ensures Reached(env, start, Session(caller, recorded + [a]),
                    lines + [Record(NewEntry(env.dig, caller, prev, seqNo, a))])
         == Some(Position(DigestOf(env.dig, caller, prev, seqNo, a), seqNo + 1))
  {
    ResumesBehind(env, caller, lines, prev, seqNo, a);
    RecordedAt(env, caller, lines, Position(prev, seqNo), a);
    FoldMore(Recorder(env, caller), start, recorded, a);
  }

  lemma ResumesBehind(env: Env, caller: string, lines: seq<Line>, prev: string, seqNo: int, a: Args)
    ensures Resume(env, lines + [Record(NewEntry(env.dig, caller, prev, seqNo, a))])
         == Some(Position(DigestOf(env.dig, caller, prev, seqNo, a), seqNo + 1))
  {
    LastOfAppended(lines, Record(NewEntry(env.dig, caller, prev, seqNo, a)));
    NewEntryResumes(env, caller, prev, seqNo, a);
  }

  lemma RecordedAt(env: Env, caller: string, lines: seq<Line>, p: Position, a: Args)
    requires Resume(env, lines) == Some(p)
    ensures Recorder(env, caller)(lines, a) == lines + [Record(NewEntry(env.dig, caller, p.prev, p.seqNo, a))]
  {
  }

  lemma LastOfAppended(lines: seq<Line>, l: Line)
    requires !l.Blank?
    ensures LastLine(lines + [l]) == l
  {
  }

  lemma NewEntryResumes(env: Env, caller: string, prev: string, seqNo: int, a: Args)
    ensures ResumeAt(env, Record(NewEntry(env.dig, caller, prev, seqNo, a)))
         == Some(Position(DigestOf(env.dig, caller, prev, seqNo, a), seqNo + 1))
  {
    var fs := Unhashed(caller, prev, seqNo, a);
    var e, hash := NewEntry(env.dig, caller, prev, seqNo, a), DigestOf(env.dig, caller, prev, seqNo, a);
    assert Get(e, "hash") == Some(Str(hash)) by { BodyWithoutHash(fs, Str(hash)); }
    assert e[0] == Field("seq", Int(seqNo));
    EntryResumes(env, e, seqNo, hash);
  }

  /** The log after one record() by a logger that has it open. */
  function Appended(env: Env, caller: string, lines: seq<Line>, a: Args): (lines': seq<Line>) {
    match Resume(env, lines)
    case None => lines
    case Some(p) => lines + [Record(NewEntry(env.dig, caller, p.prev, p.seqNo, a))]
  }

  lemma AppendedIs(env: Env, caller: string, lines: seq<Line>, a: Args)
    requires Good(env.dig, lines)
    ensures var es := Entries(lines);
      Appended(env, caller, lines, a) == lines + [Record(NewEntry(env.dig, caller, PrevOf(es, |es|), |es|, a))]
  {
    GoodResumes(env, lines);
  }

  /** An entry that continues the chain of a good log keeps it good. */
  lemma GoodMore(dig: Digest, lines: seq<Line>, e: Entry)
    requires Good(dig, lines)
    requires var es := Entries(lines); var prev := PrevOf(es, |es|);
      SeqOk(e, |es|) && PrevOk(e, prev) && HashOk(dig, e, prev)
    ensures Good(dig, lines + [Record(e)]) && Entries(lines + [Record(e)]) == Entries(lines) + [e]
  {
    var lines' := lines + [Record(e)];
    assert lines'[..|lines|] == lines && lines'[..|lines| + 1] == lines';
    GoodStep(dig, lines', |lines|);
    EntriesSplit(lines', |lines|);
  }

  /** Recording continues a good log. */
  lemma AppendedGood(env: Env, caller: string, lines: seq<Line>, a: Args)
    requires Good(env.dig, lines)
    ensures var es, lines' := Entries(lines), Appended(env, caller, lines, a);
      && Good(env.dig, lines') && lines <= lines'
      && Entries(lines') == es + [NewEntry(env.dig, caller, PrevOf(es, |es|), |es|, a)]
  {
    var es := Entries(lines);
    AppendedIs(env, caller, lines, a);
    NewEntryLinks(env.dig, caller, PrevOf(es, |es|), |es|, a);
    GoodMore(env.dig, lines, NewEntry(env.dig, caller, PrevOf(es, |es|), |es|, a));
  }

  // ---------- sessions ----------

  /** One life of a logger: it is opened under a caller id, records, and is closed. */
  datatype Session = Session(caller: string, records: seq<Args>)

  /** What one record() of a session does to the log. */
  function Recorder(env: Env, caller: string): (step: (seq<Line>, Args) -> seq<Line>) {
    (lines, a) => Appended(env, caller, lines, a)
  }

  function AfterRecords(env: Env, lines: seq<Line>, s: Session, k: nat): (lines': seq<Line>)
    requires k <= |s.records|
  {
    Fold(Recorder(env, s.caller), lines, s.records, k)
  }

  lemma ReachedIs(env: Env, start: seq<Line>, s: Session, lines: seq<Line>)
    requires Reached(env, start, s, lines).Some?
    ensures lines == AfterRecords(env, start, s, |s.records|)
  {
  }

  /** What has been recorded since a moment turns the file as it was then into the file as it is. */
  lemma RecordedSince(env: Env, start: seq<Line>, s: Session, more: seq<Args>, lines: seq<Line>, lines': seq<Line>)
    requires lines == AfterRecords(env, start, s, |s.records|)
    requires lines' == AfterRecords(env, start, Session(s.caller, s.records + more), |s.records + more|)
    ensures lines' == AfterRecords(env, lines, Session(s.caller, more), |more|)
  {
    RecordsJoin(env, start, s, more, |more|);
  }

  function AfterSessions(env: Env, lines: seq<Line>, ss: seq<Session>): (lines': seq<Line>)
    decreases |ss|
  {
    if ss == [] then lines
    else
      var s := ss[|ss| - 1];
      AfterRecords(env, AfterSessions(env, lines, ss[..|ss| - 1]), s, |s.records|)
  }

  function RecordsIn(ss: seq<Session>): (n: nat) {
    if ss == [] then 0 else RecordsIn(ss[..|ss| - 1]) + |ss[|ss| - 1].records|
  }

  /** lines' is a good log that continues lines with n more entries. */
  ghost predicate Continues(env: Env, lines: seq<Line>, lines': seq<Line>, n: nat) {
    Good(env.dig, lines') && lines <= lines' && |Entries(lines')| == |Entries(lines)| + n
  }

  lemma ContinuesStep(env: Env, caller: string, lines: seq<Line>, lines': seq<Line>, n: nat, a: Args)
    requires Continues(env, lines, lines', n)
    ensures Continues(env, lines, Appended(env, caller, lines', a), n + 1)
  {
    AppendedGood(env, caller, lines', a);
  }

  /** The step function keeps logs good, and adds one entry. */
  ghost predicate Keeps(env: Env, step: (seq<Line>, Args) -> seq<Line>, lines: seq<Line>) {
    forall l, n: nat, a {:trigger Continues(env, lines, l, n), step(l, a)} ::
      Continues(env, lines, l, n) ==> Continues(env, lines, step(l, a), n + 1)
  }

  lemma {:induction false} FoldKeeps(env: Env, step: (seq<Line>, Args) -> seq<Line>, lines: seq<Line>,
                                     records: seq<Args>, k: nat)
    requires Keeps(env, step, lines) && Continues(env, lines, lines, 0) && k <= |records|
    ensures Continues(env, lines, Fold(step, lines, records, k), k)
    decreases k
  {
    if k > 0 {
      FoldKeeps(env, step, lines, records, k - 1);
    }
  }

  lemma RecorderKeeps(env: Env, caller: string, lines: seq<Line>)
    ensures Keeps(env, Recorder(env, caller), lines)
  {
    forall l, n: nat, a | Continues(env, lines, l, n)
      ensures Continues(env, lines, Recorder(env, caller)(l, a), n + 1)
    {
      ContinuesStep(env, caller, lines, l, n, a);
    }
  }

  lemma RecordsKeepGood(env: Env, lines: seq<Line>, s: Session, k: nat)
    requires Good(env.dig, lines) && k <= |s.records|
    ensures Continues(env, lines, AfterRecords(env, lines, s, k), k)
  {
    RecorderKeeps(env, s.caller, lines);
    FoldKeeps(env, Recorder(env, s.caller), lines, s.records, k);
  }

  /** Recording more in a session is recording from where it stood. */
  lemma RecordsJoin(env: Env, start: seq<Line>, s: Session, more: seq<Args>, k: nat)
    requires k <= |more|
    ensures AfterRecords(env, start, Session(s.caller, s.records + more), |s.records| + k)
         == AfterRecords(env, AfterRecords(env, start, s, |s.records|), Session(s.caller, more), k)
  {
    FoldJoin(Recorder(env, s.caller), start, s.records, more, k);
  }

  /** Any number of records, split over any number of sessions with one key, extends a good log to a
      good log with one more entry for each record. */
  lemma {:induction false} SessionsKeepGood(env: Env, lines: seq<Line>, ss: seq<Session>)
    requires Good(env.dig, lines)
    ensures Continues(env, lines, AfterSessions(env, lines, ss), RecordsIn(ss))
    decreases |ss|
  {
    if ss != [] {
      var front, s := ss[..|ss| - 1], ss[|ss| - 1];
      SessionsKeepGood(env, lines, front);
      RecordsKeepGood(env, AfterSessions(env, lines, front), s, |s.records|);
    }
  }

  lemma AllNumbered(env: Env, es: seq<Entry>)
    requires Intact(env.dig, es)
    ensures forall i :: 0 <= i < |es| ==> SeqOk(es[i], i)
  {
    forall i | 0 <= i < |es| ensures SeqOk(es[i], i) {
      assert Linked(env.dig, es, i);
    }
  }

  /** In particular from an empty file: verification accepts the log, and its entries are numbered
      from 0 to the number of records less one. */
  lemma FreshLogGood(env: Env, ss: seq<Session>)
    ensures var log := AfterSessions(env, [], ss);
      && Good(env.dig, log)
      && |Entries(log)| == RecordsIn(ss) && forall i :: 0 <= i < |Entries(log)| ==> SeqOk(Entries(log)[i], i)
  {
    SessionsKeepGood(env, [], ss);
    AllNumbered(env, Entries(AfterSessions(env, [], ss)));
  }
}
