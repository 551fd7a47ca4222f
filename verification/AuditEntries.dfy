/** What the entries of the audit log say. */
module AuditEntries {
  import opened Prelude
  import opened Json
  import opened Redaction
  import opened Audit
  import opened AuditLog

  /** e says what was recorded under this caller id, its details redacted, and shows no secret. */
  ghost predicate Says(e: Entry, caller: string, a: Args) {
    && Get(e, "ts") == Some(Float(a.ts)) && Get(e, "caller_id") == Some(Str(caller))
    && Get(e, "tool") == Some(Str(a.tool)) && Get(e, "action") == Some(Str(a.action))
    && Get(e, "result") == Some(Str(a.result))
    && Get(e, "details") == Some(Redact(Obj(a.details)))
    && Clean(Obj(e))
  }

  lemma {:induction false} GetAt(fs: seq<Field>, i: nat)
    requires i < |fs| && forall j :: 0 <= j < i ==> fs[j].key != fs[i].key
    ensures Get(fs, fs[i].key) == Some(fs[i].value)
  {
    if i > 0 {
      GetAt(fs[1..], i - 1);
    }
  }

  lemma {:induction false} AllClean(fs: seq<Field>)
    requires forall i :: 0 <= i < |fs| ==> !SecretKey(fs[i].key) && Clean(fs[i].value)
    ensures CleanFields(fs)
  {
    if fs != [] {
      AllClean(fs[1..]);
    }
  }

  lemma OpenKeys()
    ensures !SecretKey("seq") && !SecretKey("ts") && !SecretKey("caller_id") && !SecretKey("tool")
    ensures !SecretKey("action") && !SecretKey("result") && !SecretKey("details")
    ensures !SecretKey("prev_hash") && !SecretKey("hash")
  {
    assert Lower("action")[0] == 'a' && Lower("result")[0] == 'r' && Lower("details")[0] == 'd';
  }

  lemma NewEntryClean(dig: Digest, caller: string, prev: string, seqNo: int, a: Args)
    ensures Clean(Obj(NewEntry(dig, caller, prev, seqNo, a)))
  {
    var e := NewEntry(dig, caller, prev, seqNo, a);
    assert |e| == 9 && forall i :: 0 <= i < 9 ==> !SecretKey(e[i].key) by {
      OpenKeys();
    }
    RedactClean(Obj(a.details));
    AllClean(e);
  }

  lemma NewEntryHead(dig: Digest, caller: string, prev: string, seqNo: int, a: Args)
    ensures var e := NewEntry(dig, caller, prev, seqNo, a);
      && Get(e, "ts") == Some(Float(a.ts)) && Get(e, "caller_id") == Some(Str(caller))
      && Get(e, "tool") == Some(Str(a.tool))
  {
    var e := NewEntry(dig, caller, prev, seqNo, a);
    GetAt(e, 1);
    GetAt(e, 2);
    GetAt(e, 3);
  }

  lemma NewEntryRest(dig: Digest, caller: string, prev: string, seqNo: int, a: Args)
    ensures var e := NewEntry(dig, caller, prev, seqNo, a);
      && Get(e, "action") == Some(Str(a.action)) && Get(e, "result") == Some(Str(a.result))
      && Get(e, "details") == Some(Redact(Obj(a.details)))
  {
    var e := NewEntry(dig, caller, prev, seqNo, a);
    GetAt(e, 4);
    GetAt(e, 5);
    GetAt(e, 6);
  }

  /** A recorded entry says what was recorded. */
  lemma NewEntrySays(dig: Digest, caller: string, prev: string, seqNo: int, a: Args)
    ensures Says(NewEntry(dig, caller, prev, seqNo, a), caller, a)
  {
    NewEntryClean(dig, caller, prev, seqNo, a);
    NewEntryHead(dig, caller, prev, seqNo, a);
    NewEntryRest(dig, caller, prev, seqNo, a);
  }

  // ---------- over sessions ----------

  /** One record, with the caller id of its session. */
  datatype Saying = Saying(caller: string, a: Args)

  function SayingsOf(s: Session): (r: seq<Saying>)
    ensures |r| == |s.records| && forall i {:trigger r[i]} :: 0 <= i < |r| ==> r[i] == Saying(s.caller, s.records[i])
  {
    seq(|s.records|, i requires 0 <= i < |s.records| => Saying(s.caller, s.records[i]))
  }

  /** All that is recorded in the sessions, in order. */
  function Sayings(ss: seq<Session>): (r: seq<Saying>) {
    if ss == [] then [] else Sayings(ss[..|ss| - 1]) + SayingsOf(ss[|ss| - 1])
  }

  /** The entries say all this, one entry for each. */
  ghost predicate AllSay(es: seq<Entry>, r: seq<Saying>) {
    |es| == |r| && forall i {:trigger es[i]} :: 0 <= i < |es| ==> Says(es[i], r[i].caller, r[i].a)
  }

  /** The log is good, and its entries say all this. */
  ghost predicate LogSays(env: Env, lines: seq<Line>, r: seq<Saying>) {
    Good(env.dig, lines) && AllSay(Entries(lines), r)
  }

  lemma OneMoreSays(es: seq<Entry>, r: seq<Saying>, e: Entry, x: Saying)
    requires AllSay(es, r) && Says(e, x.caller, x.a)
    ensures AllSay(es + [e], r + [x])
  {
  }

  lemma AppendedSays(env: Env, caller: string, lines: seq<Line>, r: seq<Saying>, a: Args)
    requires LogSays(env, lines, r)
    ensures LogSays(env, Recorder(env, caller)(lines, a), r + [Saying(caller, a)])
  {
    var es := Entries(lines);
    AppendedGood(env, caller, lines, a);
    NewEntrySays(env.dig, caller, PrevOf(es, |es|), |es|, a);
    OneMoreSays(es, r, NewEntry(env.dig, caller, PrevOf(es, |es|), |es|, a), Saying(caller, a));
  }

  /** So far it is as if the first k records of the session had been said. */
  ghost predicate SaidSoFar(env: Env, lines: seq<Line>, r: seq<Saying>, s: Session, k: nat)
    requires k <= |s.records|
  {
    LogSays(env, AfterRecords(env, lines, s, k), r + SayingsOf(s)[..k])
  }

  lemma RecordSays(env: Env, lines: seq<Line>, r: seq<Saying>, s: Session, k: nat)
    requires k < |s.records| && SaidSoFar(env, lines, r, s, k)
    ensures SaidSoFar(env, lines, r, s, k + 1)
  {
    AppendedSays(env, s.caller, AfterRecords(env, lines, s, k), r + SayingsOf(s)[..k], s.records[k]);
    assert r + SayingsOf(s)[..k + 1] == (r + SayingsOf(s)[..k]) + [Saying(s.caller, s.records[k])];
  }

  lemma RecordsSay(env: Env, lines: seq<Line>, r: seq<Saying>, s: Session)
    requires LogSays(env, lines, r)
    ensures LogSays(env, AfterRecords(env, lines, s, |s.records|), r + SayingsOf(s))
  {
    assert r + SayingsOf(s)[..0] == r && SayingsOf(s)[..|s.records|] == SayingsOf(s);
    for k := 0 to |s.records|
      invariant SaidSoFar(env, lines, r, s, k)
    {
      RecordSays(env, lines, r, s, k);
    }
  }

  /** Over any sessions from an empty file, the entries of the log say what was recorded, one entry for each
      record and in order, and none of them shows a secret. */
  lemma {:induction false} SessionsSay(env: Env, ss: seq<Session>)
    ensures LogSays(env, AfterSessions(env, [], ss), Sayings(ss))
    decreases |ss|
  {
    if ss != [] {
      var front, s := ss[..|ss| - 1], ss[|ss| - 1];
      SessionsSay(env, front);
      RecordsSay(env, AfterSessions(env, [], front), Sayings(front), s);
    }
  }

  /** Details without secrets are recorded as they are. */
  lemma CleanDetailsKept(e: Entry, caller: string, a: Args)
    requires Says(e, caller, a) && Clean(Obj(a.details))
    ensures Get(e, "details") == Some(Obj(a.details))
  {
    RedactClean(Obj(a.details));
  }
}
