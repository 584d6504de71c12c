/** The call tree behind a log: what one dispatch, and the dispatches its handler
    makes, write to the audit log, and how the tree is read back from the log. */
module CallTree {
  import opened Common
  import opened Audit
  import opened Logger

  /** What the log records of a dispatch request. */
  datatype Request = Request(actorId: string, sessionId: string, deviceId: string, verb: string, objectRef: string,
                             meta: map<string, string>)

  /** How a handler ends, and what it leaves in the metadata, which it shares with the
      closing event. */
  datatype Outcome = Done(meta: map<string, string>) | Error(text: string, meta: map<string, string>)

  datatype Tree =
    | Denied(req: Request, reason: string)
    | Ran(req: Request, calls: seq<Tree>, outcome: Outcome)

  /* ---- Writing ---- */

  const PENDING := "pending"
  const ERROR := "error:"

  function ResultText(o: Outcome): string {
    match o
    case Done(_) => SUCCESS
    case Error(text, _) => ERROR + text
  }

  function Allowed(r: Request, result: string): Event {
    AllowEvent(r.actorId, r.sessionId, r.deviceId, r.verb, r.objectRef, result, r.meta)
  }

  function Ended(r: Request, o: Outcome): Event { Allowed(r.(meta := o.meta), ResultText(o)) }

  function Refused(r: Request, reason: string): Event {
    DenyEvent(r.actorId, r.sessionId, r.deviceId, r.verb, r.objectRef, reason, r.meta)
  }

  /** A denial is one event; a run is a pending event, what the handler's own
      dispatches write, and a closing event. */
  function Emit(t: Tree): seq<Event>
    decreases t, 0
  {
    match t
    case Denied(r, reason) => [Refused(r, reason)]
    case Ran(r, calls, outcome) => [Allowed(r, PENDING)] + EmitAll(calls) + [Ended(r, outcome)]
  }

  function EmitAll(ts: seq<Tree>): seq<Event>
    decreases ts, 1
  {
    if ts == [] then [] else EmitAll(ts[..|ts| - 1]) + Emit(ts[|ts| - 1])
  }

  /* ---- Reading back ---- */

  /** Dispatches that are open while the log is read, innermost last, each with the
      calls it has completed. */
  datatype Stack = Bottom(calls: seq<Tree>) | Within(below: Stack, req: Request, calls: seq<Tree>)

  function Add(st: Stack, ts: seq<Tree>): Stack {
    match st
    case Bottom(calls) => Bottom(calls + ts)
    case Within(below, r, calls) => Within(below, r, calls + ts)
  }

  function RequestOf(e: Event): Request {
    Request(e.actorId, e.sessionId, e.deviceId, e.verb, e.objectRef, e.meta)
  }

  function OutcomeOf(result: string, meta: map<string, string>): Option<Outcome> {
    if result == SUCCESS then Some(Done(meta))
    else if |ERROR| <= |result| && result[..|ERROR|] == ERROR then Some(Error(result[|ERROR|..], meta))
    else None
  }

  /** Reads one event: a deny is a leaf, pending opens, success or an error closes. */
  function Read(st: Stack, e: Event): (r: Option<Stack>) {
    var req := RequestOf(e);
    if e == Refused(req, e.reasonCode) then Some(Add(st, [Denied(req, e.reasonCode)]))
    else if e == Allowed(req, PENDING) then Some(Within(st, req, []))
    else if && e == Allowed(req, e.result) && OutcomeOf(e.result, e.meta).Some?
            && st.Within? && req == st.req.(meta := e.meta) then
      Some(Add(st.below, [Ran(st.req, st.calls, OutcomeOf(e.result, e.meta).value)]))
    else None
  }

  function ReadAll(st: Stack, es: seq<Event>): (r: Option<Stack>) {
    if es == [] then Some(st)
    else
      match ReadAll(st, es[..|es| - 1])
      case None => None
      case Some(st') => Read(st', es[|es| - 1])
  }

  /** The call trees of a log, if it is well bracketed. */
  function Parse(es: seq<Event>): (r: Option<seq<Tree>>) {
    match ReadAll(Bottom([]), es)
    case Some(Bottom(calls)) => Some(calls)
    case _ => None
  }

  /* ---- Reading inverts writing ---- */

  lemma ResultTextReadsBack(o: Outcome)
    ensures OutcomeOf(ResultText(o), o.meta) == Some(o) && ResultText(o) != PENDING
  {
    if o.Error? {
      assert (ERROR + o.text)[..|ERROR|] == ERROR && (ERROR + o.text)[|ERROR|..] == o.text;
      assert (ERROR + o.text)[0] == 'e' && SUCCESS[0] == 's' && PENDING[0] == 'p';
    }
  }

  lemma ReadPieces(st: Stack, r: Request, reason: string, o: Outcome)
    ensures Read(st, Refused(r, reason)) == Some(Add(st, [Denied(r, reason)]))
    ensures Read(st, Allowed(r, PENDING)) == Some(Within(st, r, []))
    ensures st.Within? && st.req == r ==>
      Read(st, Ended(r, o)) == Some(Add(st.below, [Ran(r, st.calls, o)]))
  {
    ResultTextReadsBack(o);
    assert ALLOW != DENY;
  }

  lemma {:induction false} ReadAllTwice(st: Stack, es: seq<Event>, fs: seq<Event>)
    ensures ReadAll(st, es + fs) ==
      match ReadAll(st, es)
      case None => None
      case Some(st') => ReadAll(st', fs)
    decreases |fs|
  {
    if fs == [] {
      assert es + fs == es;
    } else {
      assert (es + fs)[..|es + fs| - 1] == es + fs[..|fs| - 1];
      ReadAllTwice(st, es, fs[..|fs| - 1]);
    }
  }

  /** Reading one event more. */
  lemma ReadAllSnoc(st: Stack, es: seq<Event>, e: Event)
    ensures ReadAll(st, es + [e]) ==
      match ReadAll(st, es)
      case None => None
      case Some(st') => Read(st', e)
  {
  }

  lemma EmitAllSnoc(ts: seq<Tree>, t: Tree)
    ensures EmitAll(ts + [t]) == EmitAll(ts) + Emit(t)
  {
  }

  lemma ReadOne(st: Stack, e: Event)
    ensures ReadAll(st, [e]) == Read(st, e)
  {
  }

  /** Reading what a forest wrote adds exactly that forest. */
  lemma {:induction false} ReadEmitted(st: Stack, t: Tree)
    ensures ReadAll(st, Emit(t)) == Some(Add(st, [t]))
    decreases t, 0
  {
    match t
    case Denied(r, reason) =>
      ReadOne(st, Refused(r, reason));
      ReadPieces(st, r, reason, Done(map[]));
    case Ran(r, calls, outcome) =>
      var first, last := Allowed(r, PENDING), Ended(r, outcome);
      ReadPieces(st, r, "", outcome);
      ReadOne(st, first);
      ReadEmittedAll(Within(st, r, []), calls);
      assert [] + calls == calls;
      ReadPieces(Within(st, r, calls), r, "", outcome);
      ReadOne(Within(st, r, calls), last);
      ReadAllTwice(st, [first], EmitAll(calls));
      ReadAllTwice(st, [first] + EmitAll(calls), [last]);
  }

  lemma {:induction false} ReadEmittedAll(st: Stack, ts: seq<Tree>)
    ensures ReadAll(st, EmitAll(ts)) == Some(Add(st, ts))
    decreases ts, 1
  {
    if ts == [] {
      assert Add(st, []) == st;
    } else {
      var init, last := ts[..|ts| - 1], ts[|ts| - 1];
      ReadEmittedAll(st, init);
      ReadEmitted(Add(st, init), last);
      ReadAllTwice(st, EmitAll(init), Emit(last));
      AddLast(st, ts);
    }
  }

  lemma AddLast(st: Stack, ts: seq<Tree>)
    requires ts != []
    ensures Add(Add(st, ts[..|ts| - 1]), [ts[|ts| - 1]]) == Add(st, ts)
  {
    var init, last := ts[..|ts| - 1], ts[|ts| - 1];
    assert (st.calls + init) + [last] == st.calls + ts;
  }

  /** What has been read so far, rebuilt from the stack. */
  function Rebuild(st: Stack): seq<Event> {
    match st
    case Bottom(calls) => EmitAll(calls)
    case Within(below, r, calls) => Rebuild(below) + [Allowed(r, PENDING)] + EmitAll(calls)
  }

  lemma RebuildAdd(st: Stack, t: Tree)
    ensures Rebuild(Add(st, [t])) == Rebuild(st) + Emit(t)
  {
  }

  lemma OutcomeReadsBack(result: string, meta: map<string, string>)
    ensures
      var o := OutcomeOf(result, meta);
      o.Some? ==> ResultText(o.value) == result && o.value.meta == meta
  {
  }

  lemma ReadRebuilds(st: Stack, e: Event)
    requires Read(st, e).Some?
    ensures Rebuild(Read(st, e).value) == Rebuild(st) + [e]
  {
    var req := RequestOf(e);
    if e == Refused(req, e.reasonCode) {
      RebuildAdd(st, Denied(req, e.reasonCode));
    } else if e == Allowed(req, PENDING) {
      assert Rebuild(Within(st, req, [])) == Rebuild(st) + [e];
    } else {
      var pending := [Allowed(st.req, PENDING)];
      OutcomeReadsBack(e.result, e.meta);
      RebuildAdd(st.below, Ran(st.req, st.calls, OutcomeOf(e.result, e.meta).value));
      Reassociate(Rebuild(st.below) + pending, EmitAll(st.calls), [e]);
      Reassociate(Rebuild(st.below), pending, EmitAll(st.calls) + [e]);
      Reassociate(pending, EmitAll(st.calls), [e]);
    }
  }

  lemma {:induction false} ReadAllRebuilds(st: Stack, es: seq<Event>)
    requires ReadAll(st, es).Some?
    ensures Rebuild(ReadAll(st, es).value) == Rebuild(st) + es
    decreases |es|
  {
    if es == [] {
      assert Rebuild(st) + es == Rebuild(st);
    } else {
      var init, last := es[..|es| - 1], es[|es| - 1];
      assert es == init + [last];
      ReadAllSnoc(st, init, last);
      ReadAllRebuilds(st, init);
      ReadRebuilds(ReadAll(st, init).value, last);
      Reassociate(Rebuild(st), init, [last]);
    }
  }

  /** Parsing is the inverse of writing, both ways: a log parses to a forest exactly
      when that forest writes the log. */
  lemma ParseInvertsEmit(es: seq<Event>, ts: seq<Tree>)
    ensures Parse(es) == Some(ts) <==> EmitAll(ts) == es
  {
    if EmitAll(ts) == es {
      ReadEmittedAll(Bottom([]), ts);
      assert [] + ts == ts;
    }
    if Parse(es) == Some(ts) {
      ReadAllRebuilds(Bottom([]), es);
      assert Rebuild(Bottom([])) + es == es;
    }
  }
}
