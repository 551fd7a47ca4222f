/** The policy-enforcing gateway in front of upstream MCP servers. */
module Guard {
  import opened Prelude
  import opened Json
  import opened Dlp
  import opened RedactArgs
  import P = Preflight
  import opened Audit
  import opened AuditLog

  const SCOPE: string := "mcp_proxy"

  datatype Risk = NoRisk | Suspicious | Malicious

  datatype Screen = Screen(risk: Risk, signals: seq<string>, dlp: seq<Finding>)

  /** An exception, by its type. */
  datatype Error =
    | AuthorizationError | QuotaExceeded | RateLimitExceeded | ValueError | GuardBlocked
    | Foreign(name: string)

  function ErrorName(e: Error): (s: string) {
    match e
    case AuthorizationError => "AuthorizationError"
    case QuotaExceeded => "QuotaExceeded"
    case RateLimitExceeded => "RateLimitExceeded"
    case ValueError => "ValueError"
    case GuardBlocked => "GuardBlocked"
    case Foreign(name) => name
  }

  /** What the upstream does when it is called, and what screening its response yields: the call
      may raise, and so may rendering or screening the response. */
  datatype Reply = CallRaises(error: Error) | ScreeningRaises(error: Error) | Replies(resp: Json, screen: Screen)

  /** One call: its arguments (None or a dictionary), the readings of the gate's clocks, the time
      stamp of its audit entry, and the reply of the upstream should it be called. */
  datatype Request = Request(
    server: string, tool: string, args: Option<seq<Field>>, day: int, born: real, at: real, stamp: Stamp, reply: Reply)

  datatype Config = Config(rules: P.Policy, mode: Mode, blocked: set<Risk>, find: Finder, env: Env, caller: string)

  datatype Result = Returned(resp: Json, screen: Screen, argsRedacted: bool) | ResponseBlocked | Raised(error: Error)

  /** Missing arguments are the empty dictionary. */
  function ArgsOrEmpty(q: Request): (x: Json) {
    if q.args.None? then Obj([]) else Obj(q.args.value)
  }

  function ArgFindings(find: Finder, q: Request): (fs: seq<Finding>) {
    FindingsOf(find, Leaves(ArgsOrEmpty(q)))
  }

  /** The exception a refused preflight raises. */
  function ErrorOf(o: P.Outcome): (e: Error)
    requires o != P.Passed
  {
    match o
    case Unauthorized => AuthorizationError
    case QuotaExceeded => QuotaExceeded
    case RateLimited => RateLimitExceeded
    case RateMisconfigured => ValueError
  }

  /** The arguments that are sent, if any are. */
  function ToSend(mode: Mode, findings: seq<Finding>, redacted: Json, args: Json): (r: Option<Json>) {
    if findings != [] && mode.Block? then None
    else if findings != [] && mode.Redact? then Some(redacted)
    else Some(args)
  }

  /** What the try block yields: the exception it ends with, or the screened response. */
  datatype Attempt = Failed(error: Error) | Answered(resp: Json, screen: Screen)

  function Received(reply: Reply): (t: Attempt) {
    match reply
    case CallRaises(e) => Failed(e)
    case ScreeningRaises(e) => Failed(e)
    case Replies(resp, screen) => Answered(resp, screen)
  }

  function Ended(t: Attempt, blocked: set<Risk>, argsRedacted: bool): (r: Result) {
    match t
    case Failed(e) => Raised(e)
    case Answered(resp, screen) =>
      if screen.risk in blocked then ResponseBlocked else Returned(resp, screen, argsRedacted)
  }

  /** How the try block ends behind the gate. */
  function Exchanged(mode: Mode, findings: seq<Finding>, reply: Reply): (t: Attempt) {
    if findings != [] && mode.Block? then Failed(GuardBlocked) else Received(reply)
  }

  /** How the try block ends for a call that the gate answers with o. */
  function Attempted(cfg: Config, o: P.Outcome, q: Request): (t: Attempt) {
    if !o.Passed? then Failed(ErrorOf(o)) else Exchanged(cfg.mode, ArgFindings(cfg.find, q), q.reply)
  }

  /** The arguments that reach the upstream, if any do. */
  function Forwarded(cfg: Config, o: P.Outcome, q: Request): (r: Option<Json>) {
    if !o.Passed? then None
    else ToSend(cfg.mode, ArgFindings(cfg.find, q), Redacted(cfg.find, ArgsOrEmpty(q)), ArgsOrEmpty(q))
  }

  /** How a call ends that the gate answers with o. */
  function Outcome(cfg: Config, o: P.Outcome, q: Request): (r: Result) {
    Ended(Attempted(cfg, o, q), cfg.blocked, ArgFindings(cfg.find, q) != [] && cfg.mode.Redact?)
  }

  /** A call that does not pass the gate is not forwarded. */
  lemma NotPassed(cfg: Config, o: P.Outcome, q: Request)
    requires o != P.Passed
    ensures Forwarded(cfg, o, q) == None && Attempted(cfg, o, q) == Failed(ErrorOf(o))
    ensures Outcome(cfg, o, q) == Raised(ErrorOf(o))
  {
  }

  // ---------- the audit entry of a call ----------

  function ResultLabel(r: Result): (s: string) {
    match r
    case Returned(_, _, _) => "ok"
    case ResponseBlocked => "blocked"
    case Raised(_) => "error"
  }

  function RiskName(k: Risk): (s: string) {
    match k
    case NoRisk => "none"
    case Suspicious => "suspicious"
    case Malicious => "malicious"
  }

  function Strs(ss: seq<string>): (xs: seq<Json>)
    ensures PrintableElems(xs)
  {
    if ss == [] then [] else [Str(ss[0])] + Strs(ss[1..])
  }

  function Item(f: Finding): (x: Json)
    ensures x.Obj? && Printable(x)
  {
    var item := [Field("type", Str(f.kind)), Field("count", Int(f.count))];
    AllPrintable(item);
    Obj(item)
  }

  function FindingItems(fs: seq<Finding>): (xs: seq<Json>)
    ensures PrintableElems(xs)
  {
    if fs == [] then [] else [Item(fs[0])] + FindingItems(fs[1..])
  }

  function ErrorDetails(q: Request, error: Error): (d: Entry) {
    var d := [Field("server", Str(q.server)), Field("tool", Str(q.tool)), Field("error_type", Str(ErrorName(error)))];
    AllPrintable(d);
    d
  }

  function ResponseDetails(q: Request, screen: Screen, findings: seq<Finding>): (d: Entry) {
    var d := [
      Field("server", Str(q.server)), Field("tool", Str(q.tool)),
      Field("response_risk", Str(RiskName(screen.risk))),
      Field("response_signals", Arr(Strs(screen.signals))),
      Field("response_dlp", Arr(FindingItems(screen.dlp))),
      Field("args_dlp", Arr(FindingItems(findings)))];
    AllPrintable(d);
    d
  }

  function Details(r: Result, q: Request, findings: seq<Finding>): (d: Entry) {
    if r.Raised? then ErrorDetails(q, r.error)
    else if q.reply.Replies? then ResponseDetails(q, q.reply.screen, findings)
    else []
  }

  function AuditArgs(r: Result, q: Request, findings: seq<Finding>): (a: Args) {
    Args(q.stamp, "mcp_guard", "call", ResultLabel(r), Details(r, q, if r.Raised? then [] else findings))
  }

  lemma AnsweredIsReply(cfg: Config, o: P.Outcome, q: Request)
    ensures var t := Attempted(cfg, o, q);
      t.Answered? ==> o == P.Passed && q.reply == Replies(t.resp, t.screen)
  {
  }

  /** When the try block fails, the findings matter neither to the result nor to the entry. */
  lemma FindingsOfFailure(t: Attempt, q: Request, blocked: set<Risk>, mode: Mode, fs: seq<Finding>, gs: seq<Finding>)
    requires t.Failed? || fs == gs
    ensures var r := Ended(t, blocked, fs != [] && mode.Redact?);
      r == Ended(t, blocked, gs != [] && mode.Redact?) && AuditArgs(r, q, fs) == AuditArgs(r, q, gs)
  {
  }

  // ---------- the gateway ----------

  datatype Sent = Sent(server: string, tool: string, args: Json)

  class Forwarder {
    var calls: seq<Sent>

    constructor ()
      ensures calls == []
    {
      calls := [];
    }

    method Call(server: string, tool: string, args: Json)
      modifies this
      ensures calls == old(calls) + [Sent(server, tool, args)]
    {
      calls := calls + [Sent(server, tool, args)];
    }
  }

  class MCPGuard {
    const ctx: P.ToolContext
    const audit: AuditLogger
    const mode: Mode
    const find: Finder
    const fwd: Forwarder
    const blocked: set<Risk>

    ghost predicate Valid()
      reads ctx.rate, ctx.rate.owned, audit, audit.file
    {
      ctx.Valid() && audit.Valid()
    }

    ghost function Settings(): (cfg: Config) {
      Config(ctx.Rules(), mode, blocked, find, audit.env, audit.callerId)
    }

    constructor (ctx: P.ToolContext, audit: AuditLogger, mode: Mode, find: Finder, fwd: Forwarder, blocked: set<Risk>)
      requires ctx.Valid() && audit.Valid()
      ensures Valid() && this.ctx == ctx && this.audit == audit && this.mode == mode
      ensures this.find == find && this.fwd == fwd && this.blocked == blocked
    {
      this.ctx := ctx;
      this.audit := audit;
      this.mode := mode;
      this.find := find;
      this.fwd := fwd;
      this.blocked := blocked;
    }

    /** One call: the gate, at most one forward, one audit entry, and only then the result. What is
        logged and how the call ends are decided separately. */
    method Call(q: Request) returns (r: Result)
      requires Valid()
      modifies ctx.quota, ctx.rate, ctx.rate.owned, fwd, audit, audit.file
      ensures Valid() && fresh(ctx.rate.owned - old(ctx.rate.owned))
      ensures ctx.State() == P.Stepped(ctx.Rules(), old(ctx.State()), AskOf(ctx.rate.perMinute, q))
      ensures var o := P.Answer(ctx.Rules(), old(ctx.State()), AskOf(ctx.rate.perMinute, q));
        && r == Outcome(Settings(), o, q)
        && fwd.calls == old(fwd.calls) + AsSent(q, Forwarded(Settings(), o, q))
      ensures audit.recorded == old(audit.recorded) + [AuditArgs(r, q, ArgFindings(find, q))]
    {
      var t, findings := Try(q);
      r := Conclude(q, t, findings);
      FindingsOfFailure(t, q, blocked, mode, findings, ArgFindings(find, q));
    }

    /** The body of the try block. */
    method Try(q: Request) returns (t: Attempt, findings: seq<Finding>)
      requires ctx.Valid()
      modifies ctx.quota, ctx.rate, ctx.rate.owned, fwd
      ensures ctx.Valid() && fresh(ctx.rate.owned - old(ctx.rate.owned))
      ensures ctx.State() == P.Stepped(ctx.Rules(), old(ctx.State()), AskOf(ctx.rate.perMinute, q))
      ensures var o := P.Answer(ctx.Rules(), old(ctx.State()), AskOf(ctx.rate.perMinute, q));
        && t == Attempted(Settings(), o, q)
        && fwd.calls == old(fwd.calls) + AsSent(q, Forwarded(Settings(), o, q))
      ensures t.Answered? ==> findings == ArgFindings(find, q) && q.reply == Replies(t.resp, t.screen)
    {
      var o := PassGate(q);
      t, findings := AfterGate(o, q);
      AnsweredIsReply(Settings(), o, q);
    }

    /** The preflight touches nothing but the quota and the buckets. */
    method PassGate(q: Request) returns (o: P.Outcome)
      requires ctx.Valid()
      modifies ctx.quota, ctx.rate, ctx.rate.owned
      ensures ctx.Valid() && fresh(ctx.rate.owned - old(ctx.rate.owned)) && fwd.calls == old(fwd.calls)
      ensures ctx.State() == P.Stepped(ctx.Rules(), old(ctx.State()), AskOf(ctx.rate.perMinute, q))
      ensures o == P.Answer(ctx.Rules(), old(ctx.State()), AskOf(ctx.rate.perMinute, q))
    {
      o := ctx.Preflight(SCOPE, q.day, q.born, q.at);
    }

    /** What follows a preflight that ended with o; anything but Passed is raised. */
    method AfterGate(o: P.Outcome, q: Request) returns (t: Attempt, findings: seq<Finding>)
      requires ctx.Valid()
      modifies fwd
      ensures ctx.Valid() && ctx.rate.owned == old(ctx.rate.owned) && ctx.State() == old(ctx.State())
      ensures t == Attempted(Settings(), o, q)
      ensures fwd.calls == old(fwd.calls) + AsSent(q, Forwarded(Settings(), o, q))
      ensures t.Answered? ==> findings == ArgFindings(find, q)
    {
      findings := [];
      if !o.Passed? {
        NotPassed(Settings(), o, q);
        return Failed(ErrorOf(o)), findings;
      }
      t, findings := Forward(q);
    }

    /** What follows an accepted preflight: redaction, forwarding and screening. */
    method Forward(q: Request) returns (t: Attempt, findings: seq<Finding>)
      requires ctx.Valid()
      modifies fwd
      ensures ctx.Valid() && ctx.rate.owned == old(ctx.rate.owned) && ctx.State() == old(ctx.State())
      ensures findings == ArgFindings(find, q)
      ensures t == Attempted(Settings(), P.Passed, q)
      ensures fwd.calls == old(fwd.calls) + AsSent(q, Forwarded(Settings(), P.Passed, q))
    {
      var args := ArgsOrEmpty(q);
      var redacted;
      redacted, findings := RedactArguments(find, args);
      t := ForwardRedacted(q, args, redacted, findings);
    }

    method ForwardRedacted(q: Request, args: Json, redacted: Json, findings: seq<Finding>) returns (t: Attempt)
      modifies fwd
      ensures t == Exchanged(mode, findings, q.reply)
      ensures fwd.calls == old(fwd.calls) + AsSent(q, ToSend(mode, findings, redacted, args))
    {
      if findings != [] && mode.Block? {
        return Failed(GuardBlocked);
      }
      var argsToSend := if findings != [] && mode.Redact? then redacted else args;
      fwd.Call(q.server, q.tool, argsToSend);
      match q.reply
      case CallRaises(e) => return Failed(e);
      case ScreeningRaises(e) => return Failed(e);
      case Replies(resp, screen) => return Answered(resp, screen);
    }

    /** What follows the try block: an entry in the log, then the exception or the result. The log calls
        a response blocked, and the caller is refused it, in two places. */
    method Conclude(q: Request, t: Attempt, findings: seq<Finding>) returns (r: Result)
      requires Valid() && (t.Answered? ==> q.reply == Replies(t.resp, t.screen))
      modifies audit, audit.file
      ensures Valid() && ctx.rate.owned == old(ctx.rate.owned)
      ensures ctx.State() == old(ctx.State()) && fwd.calls == old(fwd.calls)
      ensures r == Ended(t, blocked, findings != [] && mode.Redact?)
      ensures audit.recorded == old(audit.recorded) + [AuditArgs(r, q, findings)]
    {
      if t.Failed? {
        Log(Args(q.stamp, "mcp_guard", "call", "error", ErrorDetails(q, t.error)));
        return Raised(t.error);
      }
      r := ConcludeResponse(q, t.resp, t.screen, findings);
    }

    method ConcludeResponse(q: Request, resp: Json, screen: Screen, findings: seq<Finding>) returns (r: Result)
      requires Valid() && q.reply == Replies(resp, screen)
      modifies audit, audit.file
      ensures Valid() && ctx.rate.owned == old(ctx.rate.owned)
      ensures ctx.State() == old(ctx.State()) && fwd.calls == old(fwd.calls)
      ensures r == Ended(Answered(resp, screen), blocked, findings != [] && mode.Redact?)
      ensures audit.recorded == old(audit.recorded) + [AuditArgs(r, q, findings)]
    {
      var refused := screen.risk in blocked;
      Log(Args(q.stamp, "mcp_guard", "call", if refused then "blocked" else "ok",
               ResponseDetails(q, screen, findings)));
      if refused {
        return ResponseBlocked;
      }
      return Returned(resp, screen, findings != [] && mode.Redact?);
    }

    /** Writing an audit entry touches nothing but the log. */
    method Log(a: Args)
      requires Valid()
      modifies audit, audit.file
      ensures Valid() && ctx.rate.owned == old(ctx.rate.owned)
      ensures ctx.State() == old(ctx.State()) && fwd.calls == old(fwd.calls)
      ensures audit.recorded == old(audit.recorded) + [a]
    {
      audit.Append(a);
    }
  }

  function AsSent(q: Request, args: Option<Json>): (s: seq<Sent>) {
    if args.None? then [] else [Sent(q.server, q.tool, args.value)]
  }

  /** The preflight of a call, its readings in token time. */
  function AskOf(perMinute: int, q: Request): (a: P.Ask) {
    P.AskInTokenTime(perMinute, P.Ask(SCOPE, q.day, q.born, q.at))
  }
}
