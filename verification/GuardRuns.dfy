/** What every run of the gateway guarantees. */
module GuardRuns {
  import opened Prelude
  import opened Json
  import opened Dlp
  import opened RedactArgs
  import P = Preflight
  import opened Audit
  import opened AuditLog
  import opened Guard

  /** The preflights of a run, in seconds. */
  function AsksInSeconds(qs: seq<Request>): (asks: seq<P.Ask>)
    ensures |asks| == |qs|
    ensures forall i {:trigger asks[i]} :: 0 <= i < |qs| ==> asks[i] == P.Ask(SCOPE, qs[i].day, qs[i].born, qs[i].at)
  {
    seq(|qs|, i requires 0 <= i < |qs| => P.Ask(SCOPE, qs[i].day, qs[i].born, qs[i].at))
  }

  /** The preflights of a run, in token time. */
  function Asks(cfg: Config, qs: seq<Request>): (asks: seq<P.Ask>)
    ensures |asks| == |qs|
    ensures forall i {:trigger asks[i]} :: 0 <= i < |qs| ==> asks[i] == AskOf(cfg.rules.perMinute, qs[i])
  {
    P.AsksInTokenTime(cfg.rules.perMinute, AsksInSeconds(qs))
  }

  /** What happens to a call: the answer of the gate, the arguments that are forwarded, how the call
      ends, and what is recorded. */
  datatype Event = Event(gate: P.Outcome, sent: Option<Json>, result: Result, record: Args)

  type Trace = seq<Event>

  function EventOf(cfg: Config, o: P.Outcome, q: Request): (e: Event) {
    var r := Outcome(cfg, o, q);
    Event(o, Forwarded(cfg, o, q), r, AuditArgs(r, q, ArgFindings(cfg.find, q)))
  }

  ghost predicate Happens(cfg: Config, qs: seq<Request>, t: Trace, k: nat)
    requires |t| == |qs| && k < |qs|
  {
    t[k] == EventOf(cfg, P.OutcomeAt(cfg.rules, Asks(cfg, qs), k), qs[k])
  }

  /** t is what happens when a fresh gateway serves the calls qs in turn. */
  ghost predicate IsTrace(cfg: Config, qs: seq<Request>, t: Trace) {
    |t| == |qs| && forall k: nat {:trigger Happens(cfg, qs, t, k)} :: k < |qs| ==> Happens(cfg, qs, t, k)
  }

  /** Every list of calls has a trace. */
  lemma TraceExists(cfg: Config, qs: seq<Request>) returns (t: Trace)
    ensures IsTrace(cfg, qs, t)
  {
    t := seq(|qs|, k requires 0 <= k < |qs| => EventOf(cfg, P.OutcomeAt(cfg.rules, Asks(cfg, qs), k), qs[k]));
  }

  /** What the upstream has been sent after the first k calls. */
  function SentAfter(qs: seq<Request>, t: Trace, k: nat): (s: seq<Sent>)
    requires k <= |t| == |qs|
    decreases k
  {
    if k == 0 then [] else SentAfter(qs, t, k - 1) + AsSent(qs[k - 1], t[k - 1].sent)
  }

  function Records(t: Trace): (records: seq<Args>)
    ensures |records| == |t| && forall k {:trigger records[k]} :: 0 <= k < |t| ==> records[k] == t[k].record
  {
    seq(|t|, k requires 0 <= k < |t| => t[k].record)
  }

  /** The audit log after the first k calls, which started out as `lines`. */
  function LogAfter(cfg: Config, lines: seq<Line>, t: Trace, k: nat): (lines': seq<Line>)
    requires k <= |t|
  {
    AfterRecords(cfg.env, lines, Session(cfg.caller, Records(t)), k)
  }

  // ---------- serving ----------

  /** How the gateway stands after the first k calls of the run, on top of what had been recorded before. */
  ghost predicate Stands(cfg: Config, before: seq<Args>, qs: seq<Request>, t: Trace, k: nat,
                         gate: P.Gate, calls: seq<Sent>, recorded: seq<Args>)
    requires k <= |t| == |qs|
  {
    && gate == P.GateAfter(cfg.rules, Asks(cfg, qs), k)
    && calls == SentAfter(qs, t, k)
    && recorded == before + Records(t)[..k]
  }

  lemma StandsAtFirst(cfg: Config, before: seq<Args>, qs: seq<Request>, t: Trace)
    requires |t| == |qs|
    ensures Stands(cfg, before, qs, t, 0, P.FRESH_GATE, [], before)
  {
  }

  lemma OneMoreRecord(before: seq<Args>, t: Trace, k: nat)
    requires k < |t|
    ensures (before + Records(t)[..k]) + [t[k].record] == before + Records(t)[..k + 1]
  {
    assert Records(t)[..k + 1] == Records(t)[..k] + [t[k].record];
  }

  /** What the first k calls returned. */
  ghost predicate Returned(results: seq<Result>, t: Trace, k: nat) {
    |results| == k <= |t| && forall i: nat {:trigger Returns(results, t, i)} :: i < k ==> Returns(results, t, i)
  }

  ghost predicate Returns(results: seq<Result>, t: Trace, i: nat)
    requires i < |results| && i < |t|
  {
    results[i] == t[i].result
  }

  lemma OneMoreReturned(results: seq<Result>, t: Trace, k: nat, r: Result)
    requires Returned(results, t, k) && k < |t| && r == t[k].result
    ensures Returned(results + [r], t, k + 1)
  {
    forall i: nat | i < k + 1 ensures Returns(results + [r], t, i) {
      assert i < k ==> Returns(results, t, i);
    }
  }

  /** A gateway that has served the first k calls serves the next one as the trace says. */
  method ServeNext(g: MCPGuard, q: Request, results: seq<Result>,
                   ghost before: seq<Args>, ghost qs: seq<Request>, ghost t: Trace, ghost k: nat)
    returns (results': seq<Result>)
    requires g.Valid() && IsTrace(g.Settings(), qs, t) && k < |qs| && q == qs[k] && Returned(results, t, k)
    requires Stands(g.Settings(), before, qs, t, k, g.ctx.State(), g.fwd.calls, g.audit.recorded)
    modifies g.ctx.quota, g.ctx.rate, g.ctx.rate.owned, g.fwd, g.audit, g.audit.file
    ensures g.Valid() && forall b :: b in g.ctx.rate.owned ==> b in old(g.ctx.rate.owned) || fresh(b)
    ensures Stands(g.Settings(), before, qs, t, k + 1, g.ctx.State(), g.fwd.calls, g.audit.recorded)
    ensures Returned(results', t, k + 1)
  {
    assert Happens(g.Settings(), qs, t, k);
    OneMoreRecord(before, t, k);
    var r := g.Call(q);
    OneMoreReturned(results, t, k, r);
    results' := results + [r];
  }

  /** It serves the rest of the list, one call after the other. */
  method ServeRest(g: MCPGuard, qs: seq<Request>, results: seq<Result>, k: nat, ghost before: seq<Args>, ghost t: Trace)
    returns (results': seq<Result>)
    requires g.Valid() && IsTrace(g.Settings(), qs, t) && k <= |qs| && Returned(results, t, k)
    requires Stands(g.Settings(), before, qs, t, k, g.ctx.State(), g.fwd.calls, g.audit.recorded)
    modifies g.ctx.quota, g.ctx.rate, g.ctx.rate.owned, g.fwd, g.audit, g.audit.file
    ensures g.Valid() && Returned(results', t, |qs|)
    ensures Stands(g.Settings(), before, qs, t, |qs|, g.ctx.State(), g.fwd.calls, g.audit.recorded)
    decreases |qs| - k
  {
    if k == |qs| {
      return results;
    }
    results' := ServeNext(g, qs[k], results, before, qs, t, k);
    results' := ServeRest(g, qs, results', k + 1, before, t);
  }

  /** The records of a run turn the log as it stood into the log after the run. */
  lemma LogOfRun(cfg: Config, start: seq<Line>, before: seq<Args>, t: Trace, lines: seq<Line>, lines': seq<Line>)
    requires Reached(cfg.env, start, Session(cfg.caller, before), lines).Some?
    requires Reached(cfg.env, start, Session(cfg.caller, before + Records(t)[..|t|]), lines').Some?
    ensures lines' == LogAfter(cfg, lines, t, |t|)
  {
    assert Records(t)[..|t|] == Records(t);
    var s := Session(cfg.caller, before);
    ReachedIs(cfg.env, start, s, lines);
    ReachedIs(cfg.env, start, Session(cfg.caller, before + Records(t)), lines');
    RecordedSince(cfg.env, start, s, Records(t), lines, lines');
  }

  /** A fresh gateway that serves a list of calls does what the trace of the list says. */
  method Serve(g: MCPGuard, qs: seq<Request>, ghost t: Trace) returns (results: seq<Result>)
    requires g.Valid() && g.ctx.State() == P.FRESH_GATE && g.fwd.calls == []
    requires IsTrace(g.Settings(), qs, t)
    modifies g.ctx.quota, g.ctx.rate, g.ctx.rate.owned, g.fwd, g.audit, g.audit.file
    ensures g.Valid() && Returned(results, t, |qs|)
    ensures Stands(g.Settings(), old(g.audit.recorded), qs, t, |qs|, g.ctx.State(), g.fwd.calls, g.audit.recorded)
    ensures g.audit.file.lines == LogAfter(g.Settings(), old(g.audit.file.lines), t, |qs|)
  {
    ghost var before, lines := g.audit.recorded, g.audit.file.lines;
    StandsAtFirst(g.Settings(), before, qs, t);
    results := ServeRest(g, qs, [], 0, before, t);
    LogOfRun(g.Settings(), g.audit.start, before, t, lines, g.audit.file.lines);
  }

  // ---------- auditing ----------

  /** The last entry of log' is new, and its result is as given. */
  ghost predicate OneMore(log: seq<Line>, log': seq<Line>, result: string) {
    var es, es' := Entries(log), Entries(log');
    && |es'| == |es| + 1 && es <= es'
    && Get(es'[|es|], "result") == Some(Str(result))
  }

  /** "ok" if and only if a result is returned, "blocked" if and only if the response is refused, and "error"
      if and only if an exception is raised. */
  ghost predicate Labels(word: string, r: Result) {
    && (word == "ok" <==> r.Returned?)
    && (word == "blocked" <==> r.ResponseBlocked?)
    && (word == "error" <==> r.Raised?)
  }

  /** A run continues a good log by one entry for each call. */
  lemma RunContinues(cfg: Config, lines: seq<Line>, t: Trace, k: nat)
    requires Good(cfg.env.dig, lines) && k <= |t|
    ensures Continues(cfg.env, lines, LogAfter(cfg, lines, t, k), k)
  {
    RecordsKeepGood(cfg.env, lines, Session(cfg.caller, Records(t)), k);
  }

  /** Each call appends exactly one entry, labelled by how the call ended. */
  lemma OneEntryEach(cfg: Config, lines: seq<Line>, qs: seq<Request>, t: Trace, k: nat)
    requires Good(cfg.env.dig, lines) && IsTrace(cfg, qs, t) && k < |qs|
    ensures OneMore(LogAfter(cfg, lines, t, k), LogAfter(cfg, lines, t, k + 1), t[k].record.result)
    ensures Labels(t[k].record.result, t[k].result)
  {
    RunContinues(cfg, lines, t, k);
    AppendedLabel(cfg, LogAfter(cfg, lines, t, k), t[k].record);
    assert t[k].record.result == ResultLabel(t[k].result) by { assert Happens(cfg, qs, t, k); }
    LabelExact(t[k].result);
  }

  lemma AppendedLabel(cfg: Config, log: seq<Line>, a: Args)
    requires Good(cfg.env.dig, log)
    ensures OneMore(log, Appended(cfg.env, cfg.caller, log, a), a.result)
  {
    var es := Entries(log);
    AppendedGood(cfg.env, cfg.caller, log, a);
    NewEntryResult(cfg.env.dig, cfg.caller, PrevOf(es, |es|), |es|, a);
  }

  lemma LabelExact(r: Result)
    ensures Labels(ResultLabel(r), r)
  {
    assert "ok"[0] != "blocked"[0] && "ok"[0] != "error"[0] && "blocked"[0] != "error"[0];
  }

  // ---------- forwarding ----------

  /** How many of the calls i .. k-1 are forwarded. */
  function Forwards(t: Trace, i: nat, k: nat): (n: nat)
    requires k <= |t|
    decreases k
  {
    if k <= i then 0 else Forwards(t, i, k - 1) + if t[k - 1].sent.Some? then 1 else 0
  }

  /** How many of the first k calls are forwarded on day d. */
  function ForwardsOnDay(qs: seq<Request>, t: Trace, d: int, k: nat): (n: nat)
    requires k <= |t| == |qs|
    decreases k
  {
    if k == 0 then 0
    else ForwardsOnDay(qs, t, d, k - 1) + if qs[k - 1].day == d && t[k - 1].sent.Some? then 1 else 0
  }

  /** The upstream is called at most once for each call. */
  lemma {:induction false} SentCount(qs: seq<Request>, t: Trace, k: nat)
    requires k <= |t| == |qs|
    ensures |SentAfter(qs, t, k)| == Forwards(t, 0, k) <= k
    decreases k
  {
    if k > 0 {
      SentCount(qs, t, k - 1);
    }
  }

  /** Only calls that pass the gate are forwarded. */
  ghost predicate OnlyPassed(rules: P.Policy, asks: seq<P.Ask>, t: Trace) {
    |t| == |asks| && forall i {:trigger t[i]} :: 0 <= i < |t| && t[i].sent.Some? ==>
      P.OutcomeAt(rules, asks, i) == P.Passed
  }

  lemma TraceOnlyPassed(cfg: Config, qs: seq<Request>, t: Trace)
    requires IsTrace(cfg, qs, t)
    ensures OnlyPassed(cfg.rules, Asks(cfg, qs), t)
  {
    forall i | 0 <= i < |qs| && t[i].sent.Some? ensures P.OutcomeAt(cfg.rules, Asks(cfg, qs), i) == P.Passed {
      assert Happens(cfg, qs, t, i);
    }
  }

  lemma {:induction false} ForwardsArePasses(rules: P.Policy, asks: seq<P.Ask>, t: Trace, i: nat, k: nat)
    requires OnlyPassed(rules, asks, t) && k <= |t|
    requires forall j {:trigger asks[j]} :: 0 <= j < |asks| ==> asks[j].scope == SCOPE
    ensures Forwards(t, i, k) <= P.PassedOn(rules, asks, SCOPE, i, k)
    decreases k
  {
    if i < k {
      ForwardsArePasses(rules, asks, t, i, k - 1);
    }
  }

  lemma TraceForwards(cfg: Config, qs: seq<Request>, t: Trace, i: nat, k: nat)
    requires IsTrace(cfg, qs, t) && k <= |qs|
    ensures Forwards(t, i, k) <= P.PassedOn(cfg.rules, Asks(cfg, qs), SCOPE, i, k)
  {
    TraceOnlyPassed(cfg, qs, t);
    ForwardsArePasses(cfg.rules, Asks(cfg, qs), t, i, k);
  }

  lemma {:induction false} DayForwardsArePasses(rules: P.Policy, asks: seq<P.Ask>, qs: seq<Request>,
                                                t: Trace, d: int, k: nat)
    requires OnlyPassed(rules, asks, t) && k <= |t| == |qs|
    requires forall j {:trigger asks[j]} :: 0 <= j < |asks| ==> asks[j].day == qs[j].day
    ensures ForwardsOnDay(qs, t, d, k) <= P.Ended(rules, asks, d, P.Passed, k)
    decreases k
  {
    if k > 0 {
      DayForwardsArePasses(rules, asks, qs, t, d, k - 1);
    }
  }

  /** With a positive limit, no day sees more forwards than the limit. */
  lemma ForwardsPerDay(cfg: Config, qs: seq<Request>, t: Trace, d: int, k: nat)
    requires cfg.rules.dailyLimit > 0 && IsTrace(cfg, qs, t) && k <= |qs|
    requires forall i, j :: 0 <= i < j < |qs| ==> qs[i].day <= qs[j].day
    ensures ForwardsOnDay(qs, t, d, k) <= cfg.rules.dailyLimit
  {
    TraceOnlyPassed(cfg, qs, t);
    P.DayBudget(cfg.rules, Asks(cfg, qs), d, k);
    DayForwardsArePasses(cfg.rules, Asks(cfg, qs), qs, t, d, k);
  }

  /** The readings of the clocks never go back. */
  ghost predicate RequestsTicking(qs: seq<Request>) {
    && (forall i :: 0 <= i < |qs| ==> qs[i].born <= qs[i].at)
    && (forall i, j :: 0 <= i < j < |qs| ==> qs[i].at <= qs[j].born)
  }

  lemma SecondsTicking(qs: seq<Request>)
    requires RequestsTicking(qs)
    ensures P.AsksTicking(AsksInSeconds(qs))
  {
  }

  lemma MinuteOfPasses(rules: P.Policy, qs: seq<Request>, i: nat, k: nat)
    requires rules.perMinute > 0 && P.AsksTicking(AsksInSeconds(qs))
    requires i < k <= |qs| && qs[k - 1].at - qs[i].at <= 60.0
    ensures P.PassedOn(rules, P.AsksInTokenTime(rules.perMinute, AsksInSeconds(qs)), SCOPE, i, k) <= 2 * rules.perMinute
  {
    P.PassesPerMinute(rules, AsksInSeconds(qs), SCOPE, i, k);
  }

  /** No sixty seconds see more forwards than twice the per-minute limit. */
  lemma ForwardsPerMinute(cfg: Config, qs: seq<Request>, t: Trace, i: nat, k: nat)
    requires cfg.rules.perMinute > 0 && RequestsTicking(qs) && IsTrace(cfg, qs, t)
    requires i < k <= |qs| && qs[k - 1].at - qs[i].at <= 60.0
    ensures Forwards(t, i, k) <= 2 * cfg.rules.perMinute
  {
    SecondsTicking(qs);
    MinuteOfPasses(cfg.rules, qs, i, k);
    TraceForwards(cfg, qs, t, i, k);
  }

  /** Without a valid rate limit, or without the scope, nothing is ever forwarded. */
  lemma FailsClosed(cfg: Config, qs: seq<Request>, t: Trace, k: nat)
    requires (cfg.rules.perMinute <= 0 || "mcp_proxy" !in cfg.rules.allowed) && IsTrace(cfg, qs, t) && k < |qs|
    ensures t[k].sent == None && t[k].result.Raised?
  {
    assert Happens(cfg, qs, t, k);
    P.GateClosed(cfg.rules, Asks(cfg, qs), k);
    NotPassed(cfg, t[k].gate, qs[k]);
  }

  // ---------- what is forwarded and returned ----------

  /** In redact mode the upstream only ever sees the sanitized tree, in block mode only a tree without
      findings, and in flag mode the arguments as they came. */
  ghost predicate ContentRule(cfg: Config, args: Json, x: Json) {
    match cfg.mode
    case Redact => x == Redacted(cfg.find, args)
    case Block => x == args && FindingsOf(cfg.find, Leaves(x)) == []
    case Flag => x == args
  }

  /** A call is forwarded exactly when it passes the gate, unless its arguments are blocked. */
  ghost predicate SentRule(cfg: Config, o: P.Outcome, q: Request, sent: Option<Json>) {
    && (sent.Some? <==> o == P.Passed && !(cfg.mode.Block? && ArgFindings(cfg.find, q) != []))
    && (sent.Some? ==> ContentRule(cfg, ArgsOrEmpty(q), sent.value))
  }

  lemma ForwardedContent(cfg: Config, o: P.Outcome, q: Request)
    ensures SentRule(cfg, o, q, Forwarded(cfg, o, q))
  {
    var args, findings := ArgsOrEmpty(q), ArgFindings(cfg.find, q);
    CleanTree(cfg.find, args);
    ToSendContent(cfg.mode, findings, Redacted(cfg.find, args), args);
  }

  lemma ToSendContent(mode: Mode, findings: seq<Finding>, redacted: Json, args: Json)
    requires findings == [] ==> redacted == args
    ensures var x := ToSend(mode, findings, redacted, args);
      && (x.Some? <==> !(mode.Block? && findings != []))
      && (x.Some? ==> x.value == (if mode.Redact? then redacted else args) && (mode.Block? ==> findings == []))
  {
  }

  lemma TraceContent(cfg: Config, qs: seq<Request>, t: Trace, k: nat)
    requires IsTrace(cfg, qs, t) && k < |qs|
    ensures SentRule(cfg, t[k].gate, qs[k], t[k].sent)
  {
    assert Happens(cfg, qs, t, k);
    ForwardedContent(cfg, t[k].gate, qs[k]);
  }

  /** A result is returned exactly for a call that was forwarded and answered with a response whose
      risk is not blocked, and it is that response; a response is refused exactly for the other answered
      calls. The result says that arguments were redacted exactly when they were. */
  ghost predicate EndingRule(cfg: Config, q: Request, findings: seq<Finding>, sent: Option<Json>, r: Result) {
    var answered := sent.Some? && q.reply.Replies?;
    && (r.Returned? <==> answered && q.reply.screen.risk !in cfg.blocked)
    && (r.ResponseBlocked? <==> answered && q.reply.screen.risk in cfg.blocked)
    && (r.Returned? ==> r.resp == q.reply.resp && r.screen == q.reply.screen)
    && (r.Returned? ==> (r.argsRedacted <==> cfg.mode.Redact? && findings != []))
  }

  lemma ExchangeEnding(cfg: Config, q: Request, findings: seq<Finding>, redacted: Json, args: Json)
    ensures EndingRule(cfg, q, findings, ToSend(cfg.mode, findings, redacted, args),
                       Ended(Exchanged(cfg.mode, findings, q.reply), cfg.blocked, findings != [] && cfg.mode.Redact?))
  {
  }

  lemma TraceEnding(cfg: Config, qs: seq<Request>, t: Trace, k: nat)
    requires IsTrace(cfg, qs, t) && k < |qs|
    ensures EndingRule(cfg, qs[k], ArgFindings(cfg.find, qs[k]), t[k].sent, t[k].result)
  {
    assert Happens(cfg, qs, t, k);
    var q := qs[k];
    var args, findings := ArgsOrEmpty(q), ArgFindings(cfg.find, q);
    if t[k].gate.Passed? {
      ExchangeEnding(cfg, q, findings, Redacted(cfg.find, args), args);
    } else {
      NotPassed(cfg, t[k].gate, q);
    }
  }
}
