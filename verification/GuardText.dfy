/** The audit entries of the gateway, as text. */
module GuardText {
  import opened Json
  import opened Dlp
  import opened Dictionaries
  import opened Reading
  import opened Sources
  import opened AuditLog
  import opened AuditText
  import opened Guard
  import opened GuardRuns

  lemma {:induction false} StrsReadable(loads: Loads, ss: seq<string>)
    ensures ProperElems(Strs(ss)) && ElemsKept(loads, Strs(ss))
  {
    if ss != [] {
      StrsReadable(loads, ss[1..]);
      assert Strs(ss)[1..] == Strs(ss[1..]);
    }
  }

  lemma ItemReadable(loads: Loads, f: Finding)
    ensures Proper(Item(f)) && FloatsKept(loads, Item(f))
  {
    AllProper(Item(f).fields);
    AllKept(loads, Item(f).fields);
  }

  lemma {:induction false} FindingItemsReadable(loads: Loads, fs: seq<Finding>)
    ensures ProperElems(FindingItems(fs)) && ElemsKept(loads, FindingItems(fs))
  {
    if fs != [] {
      ItemReadable(loads, fs[0]);
      FindingItemsReadable(loads, fs[1..]);
      assert FindingItems(fs)[1..] == FindingItems(fs[1..]);
    }
  }

  lemma ErrorDetailsReadable(loads: Loads, q: Request, error: Error)
    ensures Readable(loads, Obj(ErrorDetails(q, error)))
  {
    AllProper(ErrorDetails(q, error));
    AllKept(loads, ErrorDetails(q, error));
  }

  lemma ResponseDetailsReadable(loads: Loads, q: Request, screen: Screen, findings: seq<Finding>)
    ensures Readable(loads, Obj(ResponseDetails(q, screen, findings)))
  {
    StrsReadable(loads, screen.signals);
    FindingItemsReadable(loads, screen.dlp);
    FindingItemsReadable(loads, findings);
    AllProper(ResponseDetails(q, screen, findings));
    AllKept(loads, ResponseDetails(q, screen, findings));
  }

  /** The details of every entry of the gateway are a dictionary without floats. */
  lemma DetailsReadable(loads: Loads, r: Result, q: Request, findings: seq<Finding>)
    ensures Readable(loads, Obj(AuditArgs(r, q, findings).details))
  {
    if r.Raised? {
      ErrorDetailsReadable(loads, q, r.error);
    } else if q.reply.Replies? {
      ResponseDetailsReadable(loads, q, q.reply.screen, findings);
    }
  }

  ghost predicate StampsKept(loads: Loads, qs: seq<Request>) {
    forall i :: 0 <= i < |qs| ==> Kept(loads, qs[i].stamp)
  }

  lemma RunReadable(cfg: Config, loads: Loads, qs: seq<Request>, t: Trace)
    requires IsTrace(cfg, qs, t) && StampsKept(loads, qs)
    ensures SessionReadable(loads, Session(cfg.caller, Records(t)))
  {
    forall i | 0 <= i < |t| ensures RecordReadable(loads, Records(t)[i]) {
      assert Happens(cfg, qs, t, i);
      DetailsReadable(loads, t[i].result, qs[i], ArgFindings(cfg.find, qs[i]));
    }
  }

  /** After a run the text of the audit file reads as the log of the run. */
  lemma RunWritten(cfg: Config, loads: Loads, text: string, qs: seq<Request>, t: Trace)
    requires Complete(text) && IsTrace(cfg, qs, t) && StampsKept(loads, qs)
    ensures TextOf(loads, TextAfterRecords(cfg.env, loads, text, Session(cfg.caller, Records(t)), |t|),
                   LogAfter(cfg, Read(loads, text), t, |t|))
  {
    RunReadable(cfg, loads, qs, t);
    RecordsWritten(cfg.env, loads, text, Session(cfg.caller, Records(t)));
  }
}
