/** What the gateway sends, raises and records, call by call. */
module GuardEntries {
  import opened Prelude
  import opened Json
  import opened Redaction
  import opened Dlp
  import P = Preflight
  import opened Audit
  import opened AuditLog
  import opened AuditEntries
  import opened Guard
  import opened GuardRuns

  // ---------- what is sent ----------

  /** The call that the upstream sees for call k of the run is its n-th: the same server and tool. */
  ghost predicate SentAs(qs: seq<Request>, t: Trace, calls: seq<Sent>, k: nat, n: nat)
    requires k < |t| == |qs|
  {
    n < |calls| && t[k].sent.Some? && calls[n] == Sent(qs[k].server, qs[k].tool, t[k].sent.value)
  }

  /** A call that is forwarded is seen by the upstream as the first one after those forwarded before. */
  lemma {:induction false} ForwardSeen(qs: seq<Request>, t: Trace, k: nat, n: nat)
    requires k < n <= |t| == |qs| && t[k].sent.Some?
    ensures SentAs(qs, t, SentAfter(qs, t, n), k, Forwards(t, 0, k))
    decreases n
  {
    SentCount(qs, t, n - 1);
    if k < n - 1 {
      ForwardSeen(qs, t, k, n - 1);
    }
  }

  // ---------- what is raised ----------

  /** The exception of a refused call tells the guard that refused it; that of a call which passed the gate
      is the DLP block, or the one that came from the upstream or the screening. */
  ghost predicate ErrorRule(cfg: Config, o: P.Outcome, q: Request, r: Result) {
    && (o.Unauthorized? ==> r == Raised(AuthorizationError))
    && (o.QuotaExceeded? ==> r == Raised(Error.QuotaExceeded))
    && (o.RateLimited? ==> r == Raised(RateLimitExceeded))
    && (o.RateMisconfigured? ==> r == Raised(ValueError))
    && (o.Passed? && cfg.mode.Block? && ArgFindings(cfg.find, q) != [] ==> r == Raised(GuardBlocked))
    && (o.Passed? && !(cfg.mode.Block? && ArgFindings(cfg.find, q) != []) ==>
          && (q.reply.CallRaises? ==> r == Raised(q.reply.error))
          && (q.reply.ScreeningRaises? ==> r == Raised(q.reply.error)))
  }

  lemma OutcomeError(cfg: Config, o: P.Outcome, q: Request)
    ensures ErrorRule(cfg, o, q, Outcome(cfg, o, q))
  {
  }

  lemma TraceError(cfg: Config, qs: seq<Request>, t: Trace, k: nat)
    requires IsTrace(cfg, qs, t) && k < |qs|
    ensures ErrorRule(cfg, P.OutcomeAt(cfg.rules, Asks(cfg, qs), k), qs[k], t[k].result)
  {
    assert Happens(cfg, qs, t, k);
    OutcomeError(cfg, t[k].gate, qs[k]);
  }

  // ---------- what is recorded ----------

  ghost predicate Named(e: Error, name: string) {
    && (e.AuthorizationError? ==> name == "AuthorizationError")
    && (e.QuotaExceeded? ==> name == "QuotaExceeded")
    && (e.RateLimitExceeded? ==> name == "RateLimitExceeded")
    && (e.ValueError? ==> name == "ValueError")
    && (e.GuardBlocked? ==> name == "GuardBlocked")
    && (e.Foreign? ==> name == e.name)
  }

  ghost predicate Rated(k: Risk, name: string) {
    && (k.NoRisk? ==> name == "none") && (k.Suspicious? ==> name == "suspicious")
    && (k.Malicious? ==> name == "malicious")
  }

  /** The strings, as JSON. */
  ghost predicate Lists(xs: seq<Json>, ss: seq<string>) {
    |xs| == |ss| && forall i :: 0 <= i < |xs| ==> xs[i] == Str(ss[i])
  }

  /** The findings, by type and count. */
  ghost predicate ListsFindings(xs: seq<Json>, fs: seq<Finding>) {
    && |xs| == |fs|
    && forall i :: 0 <= i < |xs| ==>
         && xs[i].Obj? && Get(xs[i].fields, "type") == Some(Str(fs[i].kind))
         && Get(xs[i].fields, "count") == Some(Int(fs[i].count)) && |xs[i].fields| == 2
  }

  ghost predicate ErrorSaid(d: seq<Field>, q: Request, e: Error) {
    && |d| == 3 && Get(d, "server") == Some(Str(q.server)) && Get(d, "tool") == Some(Str(q.tool))
    && Get(d, "error_type").Some? && Get(d, "error_type").value.Str? && Named(e, Get(d, "error_type").value.s)
  }

  ghost predicate ResponseSaid(d: seq<Field>, q: Request, screen: Screen, findings: seq<Finding>) {
    && |d| == 6 && Get(d, "server") == Some(Str(q.server)) && Get(d, "tool") == Some(Str(q.tool))
    && Get(d, "response_risk").Some? && Get(d, "response_risk").value.Str?
    && Rated(screen.risk, Get(d, "response_risk").value.s)
    && Get(d, "response_signals").Some? && Get(d, "response_signals").value.Arr?
    && Lists(Get(d, "response_signals").value.elems, screen.signals)
    && Get(d, "response_dlp").Some? && Get(d, "response_dlp").value.Arr?
    && ListsFindings(Get(d, "response_dlp").value.elems, screen.dlp)
    && Get(d, "args_dlp").Some? && Get(d, "args_dlp").value.Arr?
    && ListsFindings(Get(d, "args_dlp").value.elems, findings)
  }

  lemma {:induction false} StrsListed(ss: seq<string>)
    ensures Lists(Strs(ss), ss) && CleanElems(Strs(ss))
  {
    if ss != [] {
      StrsListed(ss[1..]);
      assert Strs(ss)[1..] == Strs(ss[1..]);
    }
  }

  lemma OpenDetails()
    ensures !SecretKey("server") && !SecretKey("tool") && !SecretKey("error_type") && !SecretKey("response_risk")
    ensures !SecretKey("response_signals") && !SecretKey("response_dlp") && !SecretKey("args_dlp")
    ensures !SecretKey("type") && !SecretKey("count")
  {
    assert Lower("server")[2] == 'r' && Lower("response_risk")[0] == 'r';
    assert Lower("args_dlp")[0] == 'a' && Lower("count")[0] == 'c';
  }

  lemma ItemListed(f: Finding)
    ensures ListsFindings([Item(f)], [f]) && Clean(Item(f))
  {
    GetAt(Item(f).fields, 0);
    GetAt(Item(f).fields, 1);
    OpenDetails();
    AllClean(Item(f).fields);
  }

  lemma {:induction false} ItemsListed(fs: seq<Finding>)
    ensures ListsFindings(FindingItems(fs), fs) && CleanElems(FindingItems(fs))
  {
    if fs != [] {
      ItemListed(fs[0]);
      ItemsListed(fs[1..]);
      assert [Item(fs[0])][0] == Item(fs[0]) && FindingItems(fs)[1..] == FindingItems(fs[1..]);
    }
  }

  lemma ErrorDetailsSay(q: Request, e: Error)
    ensures ErrorSaid(ErrorDetails(q, e), q, e)
  {
    var d := ErrorDetails(q, e);
    GetAt(d, 0);
    GetAt(d, 1);
    GetAt(d, 2);
  }

  lemma ErrorDetailsClean(q: Request, e: Error)
    ensures Clean(Obj(ErrorDetails(q, e)))
  {
    OpenDetails();
    AllClean(ErrorDetails(q, e));
  }

  lemma ResponseLookups(q: Request, screen: Screen, findings: seq<Finding>)
    ensures var d := ResponseDetails(q, screen, findings);
      && Get(d, "server") == Some(Str(q.server)) && Get(d, "tool") == Some(Str(q.tool))
      && Get(d, "response_risk") == Some(Str(RiskName(screen.risk)))
      && Get(d, "response_signals") == Some(Arr(Strs(screen.signals)))
      && Get(d, "response_dlp") == Some(Arr(FindingItems(screen.dlp)))
      && Get(d, "args_dlp") == Some(Arr(FindingItems(findings)))
  {
    var d := ResponseDetails(q, screen, findings);
    GetAt(d, 0);
    GetAt(d, 1);
    GetAt(d, 2);
    GetAt(d, 3);
    GetAt(d, 4);
    GetAt(d, 5);
  }

  lemma ResponseDetailsSay(q: Request, screen: Screen, findings: seq<Finding>)
    ensures ResponseSaid(ResponseDetails(q, screen, findings), q, screen, findings)
  {
    ResponseLookups(q, screen, findings);
    StrsListed(screen.signals);
    ItemsListed(screen.dlp);
    ItemsListed(findings);
  }

  lemma ResponseKeysOpen(q: Request, screen: Screen, findings: seq<Finding>)
    ensures var d := ResponseDetails(q, screen, findings);
      forall i :: 0 <= i < |d| ==> !SecretKey(d[i].key)
  {
    OpenDetails();
  }

  lemma ResponseDetailsClean(q: Request, screen: Screen, findings: seq<Finding>)
    ensures Clean(Obj(ResponseDetails(q, screen, findings)))
  {
    var d := ResponseDetails(q, screen, findings);
    ResponseKeysOpen(q, screen, findings);
    assert forall i :: 0 <= i < |d| ==> Clean(d[i].value) by {
      StrsListed(screen.signals);
      ItemsListed(screen.dlp);
      ItemsListed(findings);
    }
    AllClean(d);
  }

  /** The entry of a call: when, under which caller, for what, with which result, and the details of its
      ending, in clear because they hold no secret names. */
  ghost predicate EntryRule(cfg: Config, q: Request, r: Result, e: Entry) {
    && Get(e, "ts") == Some(Float(q.stamp)) && Get(e, "caller_id") == Some(Str(cfg.caller))
    && Get(e, "tool") == Some(Str("mcp_guard")) && Get(e, "action") == Some(Str("call"))
    && Get(e, "result").Some? && Get(e, "result").value.Str? && Labels(Get(e, "result").value.s, r)
    && Get(e, "details").Some? && Get(e, "details").value.Obj?
    && var d := Get(e, "details").value.fields;
    && (r.Raised? ==> ErrorSaid(d, q, r.error))
    && (!r.Raised? ==> q.reply.Replies? && ResponseSaid(d, q, q.reply.screen, ArgFindings(cfg.find, q)))
  }

  lemma RecordSaid(cfg: Config, q: Request, r: Result, e: Entry)
    requires Says(e, cfg.caller, AuditArgs(r, q, ArgFindings(cfg.find, q))) && (r.Raised? || q.reply.Replies?)
    ensures EntryRule(cfg, q, r, e)
  {
    var a := AuditArgs(r, q, ArgFindings(cfg.find, q));
    if r.Raised? {
      ErrorDetailsSay(q, r.error);
      ErrorDetailsClean(q, r.error);
    } else {
      ResponseDetailsSay(q, q.reply.screen, ArgFindings(cfg.find, q));
      ResponseDetailsClean(q, q.reply.screen, ArgFindings(cfg.find, q));
    }
    CleanDetailsKept(e, cfg.caller, a);
    LabelExact(r);
  }

  lemma Answered(cfg: Config, o: P.Outcome, q: Request)
    ensures Outcome(cfg, o, q).Raised? || q.reply.Replies?
  {
    AnsweredIsReply(cfg, o, q);
  }

  /** The entry that call k appends to a good log says all this of the call. */
  lemma EntryOfCall(cfg: Config, lines: seq<Line>, qs: seq<Request>, t: Trace, k: nat)
    requires Good(cfg.env.dig, lines) && IsTrace(cfg, qs, t) && k < |qs|
    ensures var es, es' := Entries(LogAfter(cfg, lines, t, k)), Entries(LogAfter(cfg, lines, t, k + 1));
      |es'| == |es| + 1 && es <= es' && EntryRule(cfg, qs[k], t[k].result, es'[|es|])
  {
    var log := LogAfter(cfg, lines, t, k);
    RunContinues(cfg, lines, t, k);
    LogGrows(cfg, log, t[k].record);
    var e := Entries(Appended(cfg.env, cfg.caller, log, t[k].record))[|Entries(log)|];
    assert t[k].record == AuditArgs(t[k].result, qs[k], ArgFindings(cfg.find, qs[k])) by {
      assert Happens(cfg, qs, t, k);
    }
    assert t[k].result.Raised? || qs[k].reply.Replies? by {
      assert Happens(cfg, qs, t, k);
      Answered(cfg, t[k].gate, qs[k]);
    }
    RecordSaid(cfg, qs[k], t[k].result, e);
  }

  lemma LogGrows(cfg: Config, log: seq<Line>, a: Args)
    requires Good(cfg.env.dig, log)
    ensures var es, es' := Entries(log), Entries(Appended(cfg.env, cfg.caller, log, a));
      |es'| == |es| + 1 && es <= es' && Says(es'[|es|], cfg.caller, a)
  {
    var es := Entries(log);
    AppendedGood(cfg.env, cfg.caller, log, a);
    NewEntrySays(cfg.env.dig, cfg.caller, PrevOf(es, |es|), |es|, a);
  }
}
