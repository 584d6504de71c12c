/** The verb dispatcher, run sequentially: check, log, run the handler, log. Handlers
    may themselves dispatch and may move the posture. */
module Dispatcher {
  import opened Common
  import opened Audit
  import L = Logger
  import opened CallTree
  import Posture
  import Policy

  /** What a handler can do: move the posture, or dispatch a request. A request comes
      with what its own handler does, should it be run, how that ends, and how the
      appends of its first and of its closing event go. */
  datatype Action =
    | Shift(to: string, outcome: Posture.Persist)
    | Call(req: Request, role: string, body: seq<Action>, result: Outcome, first: L.Fault, closing: L.Fault)
  type Script = a: Action | a.Call?
    witness Call(Request("", "", "", "", "", map[]), "", [], Done(map[]), L.NoFault, L.NoFault)

  type Verbs = map<string, string>

  datatype DispatchError =
    | NoError
    | ErrDenied(verb: string, reasonCode: string)
    | HandlerError(text: string)
    | AuditFailure(verb: string)

  /* ---- Specification ---- */

  /** Why a dispatch is denied; meaningful when it is not permitted. */
  function ReasonCode(verbs: Verbs, posture: string, s: Script): string {
    if s.req.verb !in verbs then "verb.unknown"
    else
      var cap := verbs[s.req.verb];
      if !Policy.HasCapability(s.role, cap) then "rbac." + cap + ".missing"
      else Policy.PostureReason(posture, Posture.CapabilityVerdict(posture, cap))
  }

  /** The reason codes, word by word. */
  lemma ReasonInWords(verbs: Verbs, posture: string, s: Script)
    requires !Policy.Permits(verbs, posture, s.role, s.req.verb, s.req.objectRef)
    ensures ReasonCode(verbs, posture, s) ==
      if s.req.verb !in verbs then "verb.unknown"
      else if !Policy.HasCapability(s.role, verbs[s.req.verb]) then "rbac." + verbs[s.req.verb] + ".missing"
      else if verbs[s.req.verb] == "cap.net" || posture == "INCIDENT" then "posture." + posture + ".denied"
      else if posture == "GAME" then "posture.GAME.game_domain_only"
      else "posture." + posture + ".pinned_only"
  {
    if s.req.verb in verbs {
      Posture.OverridesByVerdict(posture, verbs[s.req.verb]);
    }
    assert "posture." + "GAME" + ".game_domain_only" == "posture.GAME.game_domain_only";
  }

  /** The posture after a handler asked for a move: a failed write leaves it. */
  function Shifted(posture: string, a: Action): string
    requires a.Shift?
  {
    if a.outcome.Written? then Posture.Next(posture, a.to) else posture
  }

  /** The call tree of a dispatch whose appends succeed, and the posture it leaves. */
  function Perform(verbs: Verbs, posture: string, s: Script): (r: (Tree, string))
    decreases s, 1
  {
    if !Policy.Permits(verbs, posture, s.role, s.req.verb, s.req.objectRef) then
      (Denied(s.req, ReasonCode(verbs, posture, s)), posture)
    else
      var (calls, after) := PerformAll(verbs, posture, s.body);
      (Ran(s.req, calls, s.result), after)
  }

  function PerformAll(verbs: Verbs, posture: string, body: seq<Action>): (r: (seq<Tree>, string))
    decreases body, 0
  {
    if body == [] then ([], posture)
    else
      var (calls, p) := PerformAll(verbs, posture, body[..|body| - 1]);
      var last := body[|body| - 1];
      if last.Shift? then (calls, Shifted(p, last))
      else
        var (t, p') := Perform(verbs, p, last);
        (calls + [t], p')
  }

  function ErrorOf(t: Tree): DispatchError {
    match t
    case Denied(r, reason) => ErrDenied(r.verb, reason)
    case Ran(_, _, outcome) => OutcomeError(outcome)
  }

  function OutcomeError(o: Outcome): DispatchError {
    match o
    case Done(_) => NoError
    case Error(text, _) => HandlerError(text)
  }

  /** What a caller of Log provides of an event. */
  function Provided(e: Event): Event { e.(ts := 0, seqNo := 0, prevHash := "", hash := "") }

  function AllProvided(es: seq<Event>): (r: seq<Event>)
    ensures |r| == |es|
    ensures forall i :: 0 <= i < |es| ==> r[i] == Provided(es[i])
  {
    seq(|es|, i requires 0 <= i < |es| => Provided(es[i]))
  }

  ghost predicate OnlyProvided(attempts: seq<L.Attempt>) {
    forall i :: 0 <= i < |attempts| ==> attempts[i].e == Provided(attempts[i].e)
  }

  /** What a dispatch does: the appends it attempts, the posture it leaves, its error. */
  datatype Effect = Effect(attempts: seq<L.Attempt>, posture: string, err: DispatchError)

  /** With any failing appends: a denial whose append fails is still a denial, a pending
      event whose append fails stops the dispatch, a closing event's failure is ignored. */
  function EffectOf(verbs: Verbs, posture: string, s: Script): (r: Effect)
    ensures OnlyProvided(r.attempts)
    decreases s, 1
  {
    if !Policy.Permits(verbs, posture, s.role, s.req.verb, s.req.objectRef) then
      var reason := ReasonCode(verbs, posture, s);
      Effect([L.Attempt(Refused(s.req, reason), s.first)], posture, ErrDenied(s.req.verb, reason))
    else
      var pending := [L.Attempt(Allowed(s.req, PENDING), s.first)];
      if !s.first.NoFault? then Effect(pending, posture, AuditFailure(s.req.verb))
      else
        var (inner, after) := EffectOfAll(verbs, posture, s.body);
        Effect(pending + inner + [L.Attempt(Ended(s.req, s.result), s.closing)], after, OutcomeError(s.result))
  }

  function EffectOfAll(verbs: Verbs, posture: string, body: seq<Action>): (r: (seq<L.Attempt>, string))
    ensures OnlyProvided(r.0)
    decreases body, 0
  {
    if body == [] then ([], posture)
    else
      var (attempts, p) := EffectOfAll(verbs, posture, body[..|body| - 1]);
      var last := body[|body| - 1];
      if last.Shift? then (attempts, Shifted(p, last))
      else
        var e := EffectOf(verbs, p, last);
        (attempts + e.attempts, e.posture)
  }

  /** The event is that of the request, with these texts and metadata. */
  predicate EventSays(e: Event, r: Request, meta: map<string, string>, decision: string, reason: string,
                      result: string) {
    && e.actorId == r.actorId && e.sessionId == r.sessionId && e.deviceId == r.deviceId
    && e.verb == r.verb && e.objectRef == r.objectRef && e.meta == meta
    && e.decision == decision && e.reasonCode == reason && e.result == result
  }

  /** What a dispatch attempts, word by word: a denial is one deny event with its reason; a
      permitted dispatch begins with a pending event and, if that was appended, goes on with
      what its handler does and ends with the outcome, which its caller gets too. */
  lemma EffectInWords(verbs: Verbs, posture: string, s: Script)
    ensures
      var e := EffectOf(verbs, posture, s);
      var n := |e.attempts| - 1;
      if !Policy.Permits(verbs, posture, s.role, s.req.verb, s.req.objectRef) then
        var reason := ReasonCode(verbs, posture, s);
        && n == 0 && e.attempts[0].fault == s.first
        && EventSays(e.attempts[0].e, s.req, s.req.meta, "deny", reason, "failure")
        && e.posture == posture && e.err == ErrDenied(s.req.verb, reason)
      else
        && 0 <= n && e.attempts[0].fault == s.first
        && EventSays(e.attempts[0].e, s.req, s.req.meta, "allow", "", "pending")
        && if !s.first.NoFault? then
             n == 0 && e.posture == posture && e.err == AuditFailure(s.req.verb)
           else
             && 1 <= n && (e.attempts[1..n], e.posture) == EffectOfAll(verbs, posture, s.body)
             && e.attempts[n].fault == s.closing
             && match s.result
                case Done(meta) =>
                  EventSays(e.attempts[n].e, s.req, meta, "allow", "", "success") && e.err == NoError
                case Error(text, meta) =>
                  EventSays(e.attempts[n].e, s.req, meta, "allow", "", "error:" + text) && e.err == HandlerError(text)
  {
  }

  /** What a handler does is done action by action, in order, each in the posture that the
      one before has left. */
  lemma {:induction false} BodyInOrder(verbs: Verbs, posture: string, a: seq<Action>, b: seq<Action>)
    ensures
      var (first, p) := EffectOfAll(verbs, posture, a);
      var (second, q) := EffectOfAll(verbs, p, b);
      EffectOfAll(verbs, posture, a + b) == (first + second, q)
    decreases |b|
  {
    if b == [] {
      assert a + b == a;
      assert EffectOfAll(verbs, posture, a).0 + [] == EffectOfAll(verbs, posture, a).0;
    } else {
      var n := |b| - 1;
      assert (a + b)[..|a| + n] == a + b[..n];
      BodyInOrder(verbs, posture, a, b[..n]);
      var (first, p) := EffectOfAll(verbs, posture, a);
      var (second, q) := EffectOfAll(verbs, p, b[..n]);
      if b[n].Call? {
        Reassociate(first, second, EffectOf(verbs, q, b[n]).attempts);
      }
    }
  }

  lemma BodyOfOne(verbs: Verbs, posture: string, x: Action)
    ensures EffectOfAll(verbs, posture, [x]) ==
      match x
      case Shift(to, outcome) => ([], if outcome.Written? then Posture.Next(posture, to) else posture)
      case Call(_, _, _, _, _, _) => (EffectOf(verbs, posture, x).attempts, EffectOf(verbs, posture, x).posture)
  {
    assert [x][..0] == [] && EffectOfAll(verbs, posture, []) == ([], posture);
    if x.Call? {
      assert [] + EffectOf(verbs, posture, x).attempts == EffectOf(verbs, posture, x).attempts;
    }
  }

  /* ---- What reaches the log ---- */

  /** The events that the attempts put into the file. */
  function Stored(attempts: seq<L.Attempt>): seq<Event> {
    if attempts == [] then []
    else
      var n := |attempts| - 1;
      Stored(attempts[..n]) + if attempts[n].fault.WriteFails? then [] else [attempts[n].e]
  }

  lemma {:induction false} StoredAppend(a: seq<L.Attempt>, b: seq<L.Attempt>)
    ensures Stored(a + b) == Stored(a) + Stored(b)
    decreases |b|
  {
    if b == [] {
      assert a + b == a;
    } else {
      var n := |b| - 1;
      assert (a + b)[..|a| + n] == a + b[..n];
      StoredAppend(a, b[..n]);
    }
  }

  lemma StoredRun(first: L.Attempt, inner: seq<L.Attempt>, last: L.Attempt)
    ensures Stored([first] + inner + [last]) == Stored([first]) + Stored(inner) + Stored([last])
  {
    StoredAppend([first], inner);
    StoredAppend([first] + inner, [last]);
  }

  /** The file has grown by what the attempts store. */
  lemma {:induction false} FileGrows(sha: Sha, es: seq<Event>, s: L.Tip, attempts: seq<L.Attempt>, times: seq<int>)
    requires |times| == |attempts| && OnlyProvided(attempts)
    ensures
      var es' := L.AppendAll(sha, es, s, attempts, times).0;
      es <= es' && AllProvided(es'[|es|..]) == Stored(attempts)
    decreases |attempts|
  {
    if attempts != [] {
      var n := |attempts| - 1;
      FileGrows(sha, es, s, attempts[..n], times[..n]);
      var (es', s') := L.AppendAll(sha, es, s, attempts[..n], times[..n]);
      var r := L.Stamp(sha, s', attempts[n].e, times[n]);
      assert (es' + [r])[|es|..] == es'[|es|..] + [r] && Provided(r) == attempts[n].e;
    }
  }

  /** 1 for an event that opens a run, -1 for one that closes it, 0 for a denial. */
  function Weight(e: Event): int {
    if e.decision == DENY then 0 else if e.result == PENDING then 1 else -1
  }

  function Surplus(es: seq<Event>): int {
    if es == [] then 0 else Surplus(es[..|es| - 1]) + Weight(es[|es| - 1])
  }

  lemma {:induction false} SurplusAppend(es: seq<Event>, fs: seq<Event>)
    ensures Surplus(es + fs) == Surplus(es) + Surplus(fs)
    decreases |fs|
  {
    if fs == [] {
      assert es + fs == es;
    } else {
      assert (es + fs)[..|es + fs| - 1] == es + fs[..|fs| - 1];
      SurplusAppend(es, fs[..|fs| - 1]);
    }
  }

  lemma Weights(r: Request, reason: string, o: Outcome)
    ensures Weight(Refused(r, reason)) == 0 && Weight(Allowed(r, PENDING)) == 1 && Weight(Ended(r, o)) == -1
  {
    ResultTextReadsBack(o);
    assert ALLOW != DENY;
  }

  lemma {:induction false} SurplusEmit(t: Tree)
    ensures Surplus(Emit(t)) == 0
    decreases t, 0
  {
    match t
    case Denied(r, reason) =>
      Weights(r, reason, Done(map[]));
      assert Emit(t)[..0] == [];
    case Ran(r, calls, outcome) =>
      var first, last := [Allowed(r, PENDING)], [Ended(r, outcome)];
      Weights(r, "", outcome);
      SurplusEmitAll(calls);
      SurplusAppend(first, EmitAll(calls));
      SurplusAppend(first + EmitAll(calls), last);
      assert first[..0] == [] && last[..0] == [];
  }

  lemma {:induction false} SurplusEmitAll(ts: seq<Tree>)
    ensures Surplus(EmitAll(ts)) == 0
    decreases ts, 1
  {
    if ts != [] {
      SurplusEmitAll(ts[..|ts| - 1]);
      SurplusEmit(ts[|ts| - 1]);
      SurplusAppend(EmitAll(ts[..|ts| - 1]), Emit(ts[|ts| - 1]));
    }
  }

  /** The attempt leaves the log well bracketed: a pending event is not stored without a
      run, and a closing event is not lost. */
  predicate Bracketed(a: L.Attempt) {
    match a.fault
    case NoFault => true
    case SyncFails => Weight(a.e) != 1
    case WriteFails => Weight(a.e) != -1
  }

  /** The attempt does what the log shows: the line is there, and a pending event runs. */
  predicate Kept(a: L.Attempt) {
    Bracketed(a) && !a.fault.WriteFails?
  }

  ghost predicate AllBracketed(attempts: seq<L.Attempt>) {
    forall i :: 0 <= i < |attempts| ==> Bracketed(attempts[i])
  }

  ghost predicate AllKept(attempts: seq<L.Attempt>) {
    forall i :: 0 <= i < |attempts| ==> Kept(attempts[i])
  }

  lemma AllAppend(a: seq<L.Attempt>, b: seq<L.Attempt>)
    ensures AllBracketed(a + b) <==> AllBracketed(a) && AllBracketed(b)
    ensures AllKept(a + b) <==> AllKept(a) && AllKept(b)
  {
    var c := a + b;
    assert forall i :: 0 <= i < |a| ==> c[i] == a[i];
    assert forall i :: 0 <= i < |b| ==> c[|a| + i] == b[i];
    assert forall i :: |a| <= i < |c| ==> c[i] == b[i - |a|];
  }

  lemma AllRun(first: L.Attempt, inner: seq<L.Attempt>, last: L.Attempt)
    ensures AllBracketed([first] + inner + [last]) <==> Bracketed(first) && AllBracketed(inner) && Bracketed(last)
    ensures AllKept([first] + inner + [last]) <==> Kept(first) && AllKept(inner) && Kept(last)
  {
    AllAppend([first], inner);
    AllAppend([first] + inner, [last]);
    assert [first][0] == first && [last][0] == last;
  }

  lemma StoredOne(a: L.Attempt)
    ensures Stored([a]) == if a.fault.WriteFails? then [] else [a.e]
    ensures AllBracketed([a]) <==> Bracketed(a)
    ensures AllKept([a]) <==> Kept(a)
    ensures Surplus(Stored([a])) == if a.fault.WriteFails? then 0 else Weight(a.e)
  {
    assert [a][..0] == [] && [a][0] == a && [a.e][..0] == [];
  }

  lemma SurplusOfRun(first: L.Attempt, inner: seq<L.Attempt>, last: L.Attempt)
    requires first.fault.NoFault? && Weight(first.e) == 1 && Weight(last.e) == -1
    ensures
      var a := [first] + inner + [last];
      && Surplus(Stored(a)) == Surplus(Stored(inner)) + (if last.fault.WriteFails? then 1 else 0)
      && (AllBracketed(a) <==> AllBracketed(inner) && !last.fault.WriteFails?)
  {
    StoredRun(first, inner, last);
    AllRun(first, inner, last);
    StoredOne(first);
    StoredOne(last);
    SurplusAppend(Stored([first]), Stored(inner));
    SurplusAppend(Stored([first]) + Stored(inner), Stored([last]));
  }

  /** What the log shows open and never closed: nothing exactly when it is well bracketed. */
  lemma {:induction false} SurplusOfEffect(verbs: Verbs, posture: string, s: Script)
    ensures
      var a := EffectOf(verbs, posture, s).attempts;
      0 <= Surplus(Stored(a)) && (Surplus(Stored(a)) == 0 <==> AllBracketed(a))
    decreases s, 1
  {
    Weights(s.req, ReasonCode(verbs, posture, s), s.result);
    var permitted := Policy.Permits(verbs, posture, s.role, s.req.verb, s.req.objectRef);
    var first, last := L.Attempt(Allowed(s.req, PENDING), s.first), L.Attempt(Ended(s.req, s.result), s.closing);
    if permitted && s.first.NoFault? {
      SurplusOfEffects(verbs, posture, s.body);
      SurplusOfRun(first, EffectOfAll(verbs, posture, s.body).0, last);
    } else {
      StoredOne(if permitted then first else L.Attempt(Refused(s.req, ReasonCode(verbs, posture, s)), s.first));
    }
  }

  lemma {:induction false} SurplusOfEffects(verbs: Verbs, posture: string, body: seq<Action>)
    ensures
      var a := EffectOfAll(verbs, posture, body).0;
      0 <= Surplus(Stored(a)) && (Surplus(Stored(a)) == 0 <==> AllBracketed(a))
    decreases body, 0
  {
    if body != [] {
      var init, last := body[..|body| - 1], body[|body| - 1];
      SurplusOfEffects(verbs, posture, init);
      var (a, p) := EffectOfAll(verbs, posture, init);
      if last.Call? {
        var b := EffectOf(verbs, p, last).attempts;
        SurplusOfEffect(verbs, p, last);
        StoredAppend(a, b);
        AllAppend(a, b);
        SurplusAppend(Stored(a), Stored(b));
      }
    }
  }

  /** The trees that a well-bracketed dispatch leaves in the log: one whose first event is
      lost leaves none. */
  function Traced(verbs: Verbs, posture: string, s: Script): (r: seq<Tree>)
    ensures |r| <= 1
    decreases s, 1
  {
    if s.first.WriteFails? then []
    else if !Policy.Permits(verbs, posture, s.role, s.req.verb, s.req.objectRef) then
      [Denied(s.req, ReasonCode(verbs, posture, s))]
    else [Ran(s.req, TracedAll(verbs, posture, s.body), s.result)]
  }

  function TracedAll(verbs: Verbs, posture: string, body: seq<Action>): (r: seq<Tree>)
    decreases body, 0
  {
    if body == [] then []
    else
      var init, last := body[..|body| - 1], body[|body| - 1];
      var before := TracedAll(verbs, posture, init);
      if last.Shift? then before else before + Traced(verbs, EffectOfAll(verbs, posture, init).1, last)
  }

  lemma EmitAllOne(t: Tree)
    ensures EmitAll([t]) == Emit(t)
  {
    assert [t][..0] == [];
  }

  lemma {:induction false} EmitAllAppend(ts: seq<Tree>, us: seq<Tree>)
    requires |us| <= 1
    ensures EmitAll(ts + us) == EmitAll(ts) + EmitAll(us)
  {
    if us == [] {
      assert ts + us == ts;
    } else {
      EmitAllOne(us[0]);
      EmitAllSnoc(ts, us[0]);
      assert us == [us[0]];
    }
  }

  lemma {:induction false} TracedIsStored(verbs: Verbs, posture: string, s: Script)
    requires AllBracketed(EffectOf(verbs, posture, s).attempts)
    ensures Stored(EffectOf(verbs, posture, s).attempts) == EmitAll(Traced(verbs, posture, s))
    decreases s, 1
  {
    Weights(s.req, ReasonCode(verbs, posture, s), s.result);
    var e := EffectOf(verbs, posture, s);
    StoredOne(e.attempts[0]);
    if Policy.Permits(verbs, posture, s.role, s.req.verb, s.req.objectRef) && s.first.NoFault? {
      var inner := EffectOfAll(verbs, posture, s.body).0;
      var first, last := L.Attempt(Allowed(s.req, PENDING), s.first), L.Attempt(Ended(s.req, s.result), s.closing);
      AllRun(first, inner, last);
      TracedAllIsStored(verbs, posture, s.body);
      StoredRun(first, inner, last);
      StoredOne(last);
      EmitAllOne(Ran(s.req, TracedAll(verbs, posture, s.body), s.result));
    } else {
      assert e.attempts == [e.attempts[0]];
      EmitAllOne(Denied(s.req, ReasonCode(verbs, posture, s)));
    }
  }

  lemma {:induction false} TracedAllIsStored(verbs: Verbs, posture: string, body: seq<Action>)
    requires AllBracketed(EffectOfAll(verbs, posture, body).0)
    ensures Stored(EffectOfAll(verbs, posture, body).0) == EmitAll(TracedAll(verbs, posture, body))
    decreases body, 0
  {
    if body != [] {
      var init, last := body[..|body| - 1], body[|body| - 1];
      var (a, p) := EffectOfAll(verbs, posture, init);
      if last.Call? {
        var b := EffectOf(verbs, p, last).attempts;
        AllAppend(a, b);
        TracedAllIsStored(verbs, posture, init);
        TracedIsStored(verbs, p, last);
        StoredAppend(a, b);
        EmitAllAppend(TracedAll(verbs, posture, init), Traced(verbs, p, last));
      } else {
        TracedAllIsStored(verbs, posture, init);
      }
    }
  }

  /** Where every attempt is kept the effect is that of the call tree, and the events are
      the tree's. */
  lemma {:induction false} KeptEffect(verbs: Verbs, posture: string, s: Script)
    requires AllKept(EffectOf(verbs, posture, s).attempts)
    ensures
      var (tree, after) := Perform(verbs, posture, s);
      var e := EffectOf(verbs, posture, s);
      Traced(verbs, posture, s) == [tree] && e.posture == after && e.err == ErrorOf(tree)
    decreases s, 1
  {
    var e := EffectOf(verbs, posture, s);
    Weights(s.req, "", s.result);
    assert Kept(e.attempts[0]);
    if Policy.Permits(verbs, posture, s.role, s.req.verb, s.req.objectRef) {
      var first, last := L.Attempt(Allowed(s.req, PENDING), s.first), L.Attempt(Ended(s.req, s.result), s.closing);
      AllRun(first, EffectOfAll(verbs, posture, s.body).0, last);
      KeptEffects(verbs, posture, s.body);
    }
  }

  lemma {:induction false} KeptEffects(verbs: Verbs, posture: string, body: seq<Action>)
    requires AllKept(EffectOfAll(verbs, posture, body).0)
    ensures
      var (calls, after) := PerformAll(verbs, posture, body);
      TracedAll(verbs, posture, body) == calls && EffectOfAll(verbs, posture, body).1 == after
    decreases body, 0
  {
    if body != [] {
      var init, last := body[..|body| - 1], body[|body| - 1];
      var (a, p) := EffectOfAll(verbs, posture, init);
      if last.Call? {
        AllAppend(a, EffectOf(verbs, p, last).attempts);
        KeptEffects(verbs, posture, init);
        KeptEffect(verbs, p, last);
      } else {
        KeptEffects(verbs, posture, init);
      }
    }
  }

  /** A dispatch that leaves its whole call tree in the log lost nothing on the way. */
  lemma {:induction false} WholeTreeKept(verbs: Verbs, posture: string, s: Script)
    requires AllBracketed(EffectOf(verbs, posture, s).attempts)
    requires Traced(verbs, posture, s) == [Perform(verbs, posture, s).0]
    ensures AllKept(EffectOf(verbs, posture, s).attempts)
    decreases s, 1
  {
    var e := EffectOf(verbs, posture, s);
    Weights(s.req, ReasonCode(verbs, posture, s), s.result);
    StoredOne(e.attempts[0]);
    assert Bracketed(e.attempts[0]);
    if Policy.Permits(verbs, posture, s.role, s.req.verb, s.req.objectRef) {
      var first, last := L.Attempt(Allowed(s.req, PENDING), s.first), L.Attempt(Ended(s.req, s.result), s.closing);
      AllRun(first, EffectOfAll(verbs, posture, s.body).0, last);
      WholeForestKept(verbs, posture, s.body);
    } else {
      assert e.attempts == [e.attempts[0]];
    }
  }

  lemma {:induction false} WholeForestKept(verbs: Verbs, posture: string, body: seq<Action>)
    requires AllBracketed(EffectOfAll(verbs, posture, body).0)
    ensures |TracedAll(verbs, posture, body)| <= |PerformAll(verbs, posture, body).0|
    ensures TracedAll(verbs, posture, body) == PerformAll(verbs, posture, body).0 ==>
      AllKept(EffectOfAll(verbs, posture, body).0)
    decreases body, 0
  {
    if body != [] {
      var init, last := body[..|body| - 1], body[|body| - 1];
      var (a, p) := EffectOfAll(verbs, posture, init);
      if last.Shift? {
        WholeForestKept(verbs, posture, init);
      } else {
        AllAppend(a, EffectOf(verbs, p, last).attempts);
        WholeForestKept(verbs, posture, init);
        if TracedAll(verbs, posture, body) == PerformAll(verbs, posture, body).0 {
          var calls, q := PerformAll(verbs, posture, init).0, PerformAll(verbs, posture, init).1;
          SameEnds(TracedAll(verbs, posture, init), Traced(verbs, p, last), calls, Perform(verbs, q, last).0);
          KeptEffects(verbs, posture, init);
          WholeTreeKept(verbs, p, last);
        }
      }
    }
  }

  lemma SameEnds<T>(s: seq<T>, x: seq<T>, t: seq<T>, y: T)
    requires |s| <= |t| && |x| <= 1 && s + x == t + [y]
    ensures s == t && x == [y]
  {
    assert |s + x| == |t + [y]|;
    assert s == (s + x)[..|s|] && t == (t + [y])[..|t|];
    assert x == (s + x)[|s|..] && [y] == (t + [y])[|t|..];
  }

  /** With any failing appends, what a dispatch stores is a well-bracketed log exactly when
      no closing event was lost and no pending event failed in its sync; then it is the
      forest of the dispatches that were traced. */
  lemma ParsesIffBracketed(verbs: Verbs, posture: string, s: Script)
    ensures
      var a := EffectOf(verbs, posture, s).attempts;
      && (Parse(Stored(a)).Some? <==> AllBracketed(a))
      && (AllBracketed(a) ==> Parse(Stored(a)) == Some(Traced(verbs, posture, s)))
  {
    var a := EffectOf(verbs, posture, s).attempts;
    if AllBracketed(a) {
      TracedIsStored(verbs, posture, s);
      ParseInvertsEmit(Stored(a), Traced(verbs, posture, s));
    } else if Parse(Stored(a)).Some? {
      ParseInvertsEmit(Stored(a), Parse(Stored(a)).value);
      SurplusEmitAll(Parse(Stored(a)).value);
      SurplusOfEffect(verbs, posture, s);
    }
  }

  /** It is the whole call tree exactly when, besides, no first event was lost either: none
      of the dispatch or of any dispatch inside it that was reached. */
  lemma ParsesIffKept(verbs: Verbs, posture: string, s: Script)
    ensures
      var a := EffectOf(verbs, posture, s).attempts;
      Parse(Stored(a)) == Some([Perform(verbs, posture, s).0]) <==> AllKept(a)
  {
    var a := EffectOf(verbs, posture, s).attempts;
    ParsesIffBracketed(verbs, posture, s);
    if AllKept(a) {
      KeptEffect(verbs, posture, s);
    } else if Parse(Stored(a)) == Some([Perform(verbs, posture, s).0]) {
      WholeTreeKept(verbs, posture, s);
    }
  }

  /** What a request is told by, whatever its metadata. */
  function KeyOf(e: Event): Request { RequestOf(e).(meta := map[]) }

  /** Of a request, 1 for a pending event that is appended, -1 for a closing event. */
  function Credit(a: L.Attempt, r: Request): int {
    if KeyOf(a.e) != r then 0
    else if Weight(a.e) == 1 && a.fault.NoFault? then 1
    else if Weight(a.e) == -1 then -1
    else 0
  }

  /** The pending events of a request that are appended, less its closing events that are
      attempted. */
  function Balance(a: seq<L.Attempt>, r: Request): int {
    if a == [] then 0 else Balance(a[..|a| - 1], r) + Credit(a[|a| - 1], r)
  }

  lemma {:induction false} BalanceAppend(a: seq<L.Attempt>, b: seq<L.Attempt>, r: Request)
    ensures Balance(a + b, r) == Balance(a, r) + Balance(b, r)
    decreases |b|
  {
    if b == [] {
      assert a + b == a;
    } else {
      var n := |b| - 1;
      assert (a + b)[..|a| + n] == a + b[..n];
      BalanceAppend(a, b[..n], r);
    }
  }

  lemma BalanceOne(a: L.Attempt, r: Request)
    ensures Balance([a], r) == Credit(a, r)
  {
    assert [a][..0] == [];
  }

  predicate Covered(a: seq<L.Attempt>, n: nat, r: Request)
    requires n <= |a|
  {
    0 <= Balance(a[..n], r)
  }

  /** At every point, as many pending events of a request are in the log as closing events
      of it have been attempted: its j-th closing event comes after j pending ones. */
  ghost predicate RecordsFirst(a: seq<L.Attempt>) {
    forall n, r :: 0 <= n <= |a| ==> Covered(a, n, r)
  }

  /** In the end each has had its closing event. */
  ghost predicate Settled(a: seq<L.Attempt>) {
    forall r :: Balance(a, r) == 0
  }

  lemma CoveredAppend(a: seq<L.Attempt>, b: seq<L.Attempt>, n: nat, r: Request)
    requires n <= |a + b| && if n <= |a| then Covered(a, n, r) else 0 <= Balance(a, r) + Balance(b[..n - |a|], r)
    ensures Covered(a + b, n, r)
  {
    if n <= |a| {
      assert (a + b)[..n] == a[..n];
    } else {
      assert (a + b)[..n] == a + b[..n - |a|];
      BalanceAppend(a, b[..n - |a|], r);
    }
  }

  lemma RecordsFirstAppend(a: seq<L.Attempt>, b: seq<L.Attempt>)
    requires RecordsFirst(a) && Settled(a) && RecordsFirst(b) && Settled(b)
    ensures RecordsFirst(a + b) && Settled(a + b)
  {
    forall n, r | 0 <= n <= |a + b|
      ensures Covered(a + b, n, r)
    {
      assert Balance(a, r) == 0;
      assert n <= |a| ==> Covered(a, n, r);
      assert |a| < n ==> Covered(b, n - |a|, r);
      CoveredAppend(a, b, n, r);
    }
    forall r
      ensures Balance(a + b, r) == 0
    {
      BalanceAppend(a, b, r);
    }
  }

  lemma FirstCovers(first: L.Attempt, inner: seq<L.Attempt>, n: nat, r: Request)
    requires RecordsFirst(inner) && first.fault.NoFault? && Weight(first.e) == 1 && n <= |inner| + 1
    ensures Balance(([first] + inner)[..n], r) >= if 0 < n then Credit(first, r) else 0
  {
    if 0 < n {
      assert ([first] + inner)[..n] == [first] + inner[..n - 1];
      BalanceAppend([first], inner[..n - 1], r);
      BalanceOne(first, r);
      assert Covered(inner, n - 1, r);
    }
  }

  lemma RecordsFirstRun(first: L.Attempt, inner: seq<L.Attempt>, last: L.Attempt)
    requires RecordsFirst(inner) && Settled(inner)
    requires first.fault.NoFault? && Weight(first.e) == 1 && Weight(last.e) == -1 && KeyOf(first.e) == KeyOf(last.e)
    ensures RecordsFirst([first] + inner + [last]) && Settled([first] + inner + [last])
  {
    var a, c := [first] + inner, [first] + inner + [last];
    forall r
      ensures Balance(a, r) == Credit(first, r) && Balance(c, r) == 0
    {
      BalanceAppend([first], inner, r);
      BalanceAppend(a, [last], r);
      BalanceOne(first, r);
      BalanceOne(last, r);
    }
    forall n, r | 0 <= n <= |c|
      ensures Covered(c, n, r)
    {
      if n <= |a| {
        FirstCovers(first, inner, n, r);
        assert c[..n] == a[..n];
      } else {
        assert c[..n] == c;
      }
    }
  }

  lemma NotYet(a: L.Attempt)
    requires Credit(a, KeyOf(a.e)) == 0
    ensures RecordsFirst([a]) && Settled([a])
  {
    forall n, r | 0 <= n <= 1
      ensures Covered([a], n, r) && Balance([a], r) == 0
    {
      BalanceOne(a, r);
      assert [a][..1] == [a] && [a][..0] == [];
    }
  }

  /** No action without a record, at any depth and whatever appends fail; nor does the
      posture move without one. */
  lemma {:induction false} RecordBeforeAction(verbs: Verbs, posture: string, s: Script)
    ensures RecordsFirst(EffectOf(verbs, posture, s).attempts) && Settled(EffectOf(verbs, posture, s).attempts)
    ensures
      var e := EffectOf(verbs, posture, s);
      e.posture != posture || e.err.NoError? || e.err.HandlerError? ==>
        e.attempts[0] == L.Attempt(Allowed(s.req, PENDING), L.NoFault)
    decreases s, 1
  {
    var reason := ReasonCode(verbs, posture, s);
    Weights(s.req, reason, s.result);
    var permitted := Policy.Permits(verbs, posture, s.role, s.req.verb, s.req.objectRef);
    var first, last := L.Attempt(Allowed(s.req, PENDING), s.first), L.Attempt(Ended(s.req, s.result), s.closing);
    if permitted && s.first.NoFault? {
      RecordsBeforeActions(verbs, posture, s.body);
      RecordsFirstRun(first, EffectOfAll(verbs, posture, s.body).0, last);
    } else {
      NotYet(if permitted then first else L.Attempt(Refused(s.req, reason), s.first));
    }
  }

  lemma {:induction false} RecordsBeforeActions(verbs: Verbs, posture: string, body: seq<Action>)
    ensures RecordsFirst(EffectOfAll(verbs, posture, body).0) && Settled(EffectOfAll(verbs, posture, body).0)
    decreases body, 0
  {
    if body == [] {
      forall n, r | n == 0
        ensures Covered([], n, r)
      {
      }
    } else {
      var init, last := body[..|body| - 1], body[|body| - 1];
      var (a, p) := EffectOfAll(verbs, posture, init);
      RecordsBeforeActions(verbs, posture, init);
      if last.Call? {
        RecordBeforeAction(verbs, p, last);
        RecordsFirstAppend(a, EffectOf(verbs, p, last).attempts);
      }
    }
  }

  /** The log after a dispatch, from wherever it started: what is new in it parses to the
      call tree exactly when every attempt was kept, and a well-kept log stays one exactly
      when no line was put past one whose sync failed. */
  lemma DispatchOnLog(sha: Sha, es: seq<Event>, tip: L.Tip, times: seq<int>, verbs: Verbs, posture: string, s: Script)
    requires |times| == |EffectOf(verbs, posture, s).attempts|
    ensures
      var a := EffectOf(verbs, posture, s).attempts;
      var es' := L.AppendAll(sha, es, tip, a, times).0;
      && es <= es'
      && (Parse(AllProvided(es'[|es|..])) == Some([Perform(verbs, posture, s).0]) <==> AllKept(a))
      && (L.WellKept(sha, es) && tip == L.TipOf(es) ==> (L.WellKept(sha, es') <==> L.NonePastSync(a)))
  {
    var a := EffectOf(verbs, posture, s).attempts;
    FileGrows(sha, es, tip, a, times);
    ParsesIffKept(verbs, posture, s);
    if tip == L.TipOf(es) {
      L.AppendAllKeeps(sha, es, a, times);
    }
  }

  lemma AppendOne(sha: Sha, es: seq<Event>, tip: L.Tip, a: L.Attempt, now: int)
    ensures L.AppendAll(sha, es, tip, [a], [now]) == L.Append(sha, es, tip, a.e, now, a.fault)
  {
    assert [a][..0] == [] && [now][..0] == [];
  }

  /* ---- The dispatcher ---- */

  class Dispatcher {
    const sha: Sha
    const log: L.Logger
    const posture: Posture.Machine
    var verbs: Verbs

    /** New */
    constructor (sha: Sha, log: L.Logger, posture: Posture.Machine)
      ensures this.sha == sha && this.log == log && this.posture == posture && verbs == map[]
    {
      this.sha, this.log, this.posture := sha, log, posture;
      verbs := map[];
    }

    /** Register: a later registration of a name replaces an earlier one. */
    method Register(verb: string, capability: string)
      modifies this
      ensures verbs == old(verbs)[verb := capability]
    {
      verbs := verbs[verb := capability];
    }

    method LogAllow(r: Request, result: string, fault: L.Fault) returns (ok: bool, ghost now: int)
      modifies log, log.file
      ensures ok <==> fault.NoFault?
      ensures (log.file.events, log.At())
           == L.Append(sha, old(log.file.events), old(log.At()), Allowed(r, result), now, fault)
    {
      var clock: int := *;
      ok := log.Allow(sha, r.actorId, r.sessionId, r.deviceId, r.verb, r.objectRef, result, r.meta, clock, fault);
      now := clock;
    }

    method LogDeny(r: Request, reason: string, fault: L.Fault) returns (ghost now: int)
      modifies log, log.file
      ensures (log.file.events, log.At())
           == L.Append(sha, old(log.file.events), old(log.At()), Refused(r, reason), now, fault)
    {
      var clock: int := *;
      var _ := log.Deny(sha, r.actorId, r.sessionId, r.deviceId, r.verb, r.objectRef, reason, r.meta, clock, fault);
      now := clock;
    }

    /** The checks of Dispatch, in their order: the verb is known, the role has the
        capability, the posture lets it through. */
    method Judge(s: Script) returns (denial: Option<string>)
      ensures denial.None? <==> Policy.Permits(verbs, posture.current, s.role, s.req.verb, s.req.objectRef)
      ensures denial.None?
         <==> && s.req.verb in verbs && Policy.HasCapability(s.role, verbs[s.req.verb])
              && var cap, p := verbs[s.req.verb], posture.current;
                 && !(cap == "cap.net" && p in {"SIEGE", "INCIDENT", "GAME"})
                 && !(cap == "cap.exec" && p in {"MERCY", "INCIDENT"})
                 && !(cap == "cap.domain.start" && p in {"SIEGE", "MERCY", "INCIDENT"})
                 && !(cap in {"cap.exec", "cap.domain.start"} && p == "GAME" && s.req.objectRef != "domain:game")
      ensures denial.Some? ==> denial.value == ReasonCode(verbs, posture.current, s)
      ensures denial.Some? ==>
        denial.value == (
          if s.req.verb !in verbs then "verb.unknown"
          else if !Policy.HasCapability(s.role, verbs[s.req.verb]) then "rbac." + verbs[s.req.verb] + ".missing"
          else if verbs[s.req.verb] == "cap.net" || posture.current == "INCIDENT" then
            "posture." + posture.current + ".denied"
          else if posture.current == "GAME" then "posture.GAME.game_domain_only"
          else "posture." + posture.current + ".pinned_only")
    {
      Policy.PermitsInWords(verbs, posture.current, s.role, s.req.verb, s.req.objectRef);
      if !Policy.Permits(verbs, posture.current, s.role, s.req.verb, s.req.objectRef) {
        ReasonInWords(verbs, posture.current, s);
      }
      if s.req.verb !in verbs {
        return Some("verb.unknown");
      }
      var cap := verbs[s.req.verb];
      if !Policy.HasCapability(s.role, cap) {
        return Some("rbac." + cap + ".missing");
      }
      var verdict := posture.Verdict(cap);
      match verdict {
        case ForceOff =>
          return Some("posture." + posture.current + ".denied");
        case PinnedOnly =>
          return Some("posture." + posture.current + ".pinned_only");
        case GameDomainOnly =>
          if s.req.objectRef != Policy.GAME_DOMAIN {
            return Some("posture." + posture.current + ".game_domain_only");
          }
        case ForceOn =>
        case PassThrough =>
      }
      return None;
    }

    /** The log is `es` and the logger at `tip` after the attempts at these times. */
    ghost predicate Logged(es: seq<Event>, tip: L.Tip, attempts: seq<L.Attempt>, times: seq<int>)
      reads log, log.file
    {
      |times| == |attempts| && (log.file.events, log.At()) == L.AppendAll(sha, es, tip, attempts, times)
    }

    /** Dispatch, with any failing appends and from any state of the log: appends, posture
        and error are exactly the specified effect. What is new in the log parses back to
        the call tree of the dispatch if and only if every append that was attempted was
        kept, and a well-kept log stays so if and only if none went past a failed sync. */
    method Dispatch(s: Script) returns (err: DispatchError, ghost times: seq<int>)
      modifies log, log.file, posture
      ensures
        if !Policy.Permits(verbs, old(posture.current), s.role, s.req.verb, s.req.objectRef) then
          err == ErrDenied(s.req.verb, ReasonCode(verbs, old(posture.current), s))
        else if !s.first.NoFault? then err == AuditFailure(s.req.verb)
        else
          match s.result
          case Done(_) => err == NoError
          case Error(text, _) => err == HandlerError(text)
      ensures
        var e := EffectOf(verbs, old(posture.current), s);
        && Logged(old(log.file.events), old(log.At()), e.attempts, times)
        && posture.current == e.posture && err == e.err
        && RecordsFirst(e.attempts) && Settled(e.attempts)
        && old(log.file.events) <= log.file.events
        && (Parse(AllProvided(log.file.events[|old(log.file.events)|..]))
              == Some([Perform(verbs, old(posture.current), s).0])
            <==> AllKept(e.attempts))
        && (old(L.WellKept(sha, log.file.events) && log.At() == L.TipOf(log.file.events)) ==>
              (L.WellKept(sha, log.file.events) <==> L.NonePastSync(e.attempts)))
      decreases s, 2
    {
      ghost var es, tip, p := log.file.events, log.At(), posture.current;
      var denial := Judge(s);
      if denial.Some? {
        ghost var now := LogDeny(s.req, denial.value, s.first);
        err, times := ErrDenied(s.req.verb, denial.value), [now];
        AppendOne(sha, es, tip, L.Attempt(Refused(s.req, denial.value), s.first), now);
      } else {
        err, times := Execute(s);
      }
      DispatchOnLog(sha, es, tip, times, verbs, p, s);
      RecordBeforeAction(verbs, p, s);
    }

    /** The permitted part of Dispatch: announce, run the handler, record the outcome. The
        handler is not run when the announcement cannot be appended. */
    method Execute(s: Script) returns (err: DispatchError, ghost times: seq<int>)
      requires Policy.Permits(verbs, posture.current, s.role, s.req.verb, s.req.objectRef)
      modifies log, log.file, posture
      ensures
        var e := EffectOf(verbs, old(posture.current), s);
        && Logged(old(log.file.events), old(log.At()), e.attempts, times)
        && posture.current == e.posture && err == e.err
      decreases s, 1
    {
      ghost var es, tip := log.file.events, log.At();
      ghost var first := L.Attempt(Allowed(s.req, PENDING), s.first);
      ghost var last := L.Attempt(Ended(s.req, s.result), s.closing);
      var ok, t1 := LogAllow(s.req, PENDING, s.first);
      AppendOne(sha, es, tip, first, t1);
      if !ok {
        return AuditFailure(s.req.verb), [t1];
      }
      ghost var inner, ts := RunBody(s.body);
      L.AppendAllTwice(sha, es, tip, [first], [t1], inner, ts);
      ghost var es', tip' := log.file.events, log.At();
      ghost var t2;
      match s.result {
        case Error(text, meta) =>
          var _, t := LogAllow(s.req.(meta := meta), ERROR + text, s.closing);
          err, t2 := HandlerError(text), t;
        case Done(meta) =>
          var _, t := LogAllow(s.req.(meta := meta), SUCCESS, s.closing);
          err, t2 := NoError, t;
      }
      AppendOne(sha, es', tip', last, t2);
      L.AppendAllTwice(sha, es, tip, [first] + inner, [t1] + ts, [last], [t2]);
      times := [t1] + ts + [t2];
    }

    /** What a handler does. */
    method RunBody(body: seq<Action>) returns (ghost attempts: seq<L.Attempt>, ghost times: seq<int>)
      modifies log, log.file, posture
      ensures (attempts, posture.current) == EffectOfAll(verbs, old(posture.current), body)
      ensures Logged(old(log.file.events), old(log.At()), attempts, times)
      decreases body, 0
    {
      attempts, times := [], [];
      for k := 0 to |body|
        invariant (attempts, posture.current) == EffectOfAll(verbs, old(posture.current), body[..k])
        invariant Logged(old(log.file.events), old(log.At()), attempts, times)
      {
        assert body[..k + 1][..k] == body[..k];
        if body[k].Shift? {
          var _, _ := posture.Transition(body[k].to, body[k].outcome);
        } else {
          ghost var p := posture.current;
          var _, ts := Dispatch(body[k]);
          ghost var e := EffectOf(verbs, p, body[k]);
          L.AppendAllTwice(sha, old(log.file.events), old(log.At()), attempts, times, e.attempts, ts);
          attempts, times := attempts + e.attempts, times + ts;
        }
      }
      assert body[..|body|] == body;
    }
  }
}
