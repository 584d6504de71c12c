/** Concurrent dispatches and posture transitions on one logger, as a transition
    system. The log's mutex and the posture's lock make the steps atomic: reading the
    verdict, reading the posture's name for a reason code, and each append. */
module Concurrent {
  import opened Common
  import opened Audit
  import L = Logger
  import opened CallTree
  import D = Dispatcher
  import Posture
  import Policy

  type Tid = nat

  /** Where a dispatch is. */
  datatype Pc =
    | Begin
    | Judged(verdict: Posture.Verdict)
    | Denying(reason: string)
    | Announcing
    | Running
    | Closing(outcome: Outcome)
    | Finished(result: Result)

  datatype Result = WasDenied(reason: string) | AuditFailed | Completed(outcome: Outcome)

  datatype Thread = Thread(req: Request, role: string, pc: Pc)

  /** `writers[i]` is the dispatch that wrote `file[i]`, if any of these did. */
  datatype World = World(file: seq<Event>, tip: L.Tip, writers: seq<Option<Tid>>, posture: string,
                         threads: map<Tid, Thread>)

  /** One step. `fault` is how the append goes, where `Advance` is one. */
  datatype Act =
    | Spawn(t: Tid, req: Request, role: string)
    | Advance(t: Tid, now: int, fault: L.Fault)
    | Return(t: Tid, outcome: Outcome)
    | Shift(to: string)

  /** The event that the thread appends next, if its next step is an append. */
  function NextEvent(th: Thread): Option<Event> {
    match th.pc
    case Denying(reason) => Some(Refused(th.req, reason))
    case Announcing => Some(Allowed(th.req, PENDING))
    case Closing(o) => Some(Ended(th.req, o))
    case _ => None
  }

  /** Where the thread is after an append; the errors of all but the pending event's
      append are ignored. */
  function AfterAppend(pc: Pc, ok: bool): Pc {
    match pc
    case Denying(reason) => Finished(WasDenied(reason))
    case Announcing => if ok then Running else Finished(AuditFailed)
    case Closing(o) => Finished(Completed(o))
    case _ => pc
  }

  /** Steps that read: the role check with the posture's verdict, then the posture's
      name where the verdict denies. */
  function AfterCheck(verbs: D.Verbs, posture: string, th: Thread): Pc {
    match th.pc
    case Begin =>
      if th.req.verb !in verbs then Denying("verb.unknown")
      else if !Policy.HasCapability(th.role, verbs[th.req.verb]) then
        Denying("rbac." + verbs[th.req.verb] + ".missing")
      else Judged(Posture.CapabilityVerdict(posture, verbs[th.req.verb]))
    case Judged(v) =>
      if Policy.LetsThrough(v, th.req.objectRef) then Announcing else Denying(Policy.PostureReason(posture, v))
    case _ => th.pc
  }

  function Step(sha: Sha, verbs: D.Verbs, w: World, act: Act): World {
    match act
    case Spawn(t, req, role) =>
      if t in w.threads then w else w.(threads := w.threads[t := Thread(req, role, Begin)])
    case Shift(to) => w.(posture := Posture.Next(w.posture, to))
    case Return(t, outcome) =>
      if t in w.threads && w.threads[t].pc == Running then MoveTo(w, t, Closing(outcome)) else w
    case Advance(t, now, fault) =>
      if t !in w.threads then w
      else if NextEvent(w.threads[t]).None? then MoveTo(w, t, AfterCheck(verbs, w.posture, w.threads[t]))
      else Record(sha, w, t, now, fault)
  }

  /** The thread's next event is appended, as far as the fault lets it. */
  function Record(sha: Sha, w: World, t: Tid, now: int, fault: L.Fault): World
    requires t in w.threads && NextEvent(w.threads[t]).Some?
  {
    var th := w.threads[t];
    var (file, tip) := L.Append(sha, w.file, w.tip, NextEvent(th).value, now, fault);
    MoveTo(w, t, AfterAppend(th.pc, fault.NoFault?))
      .(file := file, tip := tip, writers := if fault.WriteFails? then w.writers else w.writers + [Some(t)])
  }

  function MoveTo(w: World, t: Tid, pc: Pc): World
    requires t in w.threads
  {
    w.(threads := w.threads[t := w.threads[t].(pc := pc)])
  }

  /** The log that the logger opens, whatever is in it, and the posture. */
  datatype Init = Init(log: seq<Event>, posture: string)

  function Start(init: Init): World {
    World(init.log, L.TipOf(init.log), seq(|init.log|, _ => None), init.posture, map[])
  }

  function Run(sha: Sha, verbs: D.Verbs, init: Init, acts: seq<Act>): World {
    if acts == [] then Start(init)
    else Step(sha, verbs, Run(sha, verbs, init, acts[..|acts| - 1]), acts[|acts| - 1])
  }

  /* ---- What every interleaving keeps ---- */

  /** What one thread wrote, in order. */
  function WrittenBy(file: seq<Event>, writers: seq<Option<Tid>>, t: Tid): seq<Event>
    requires |file| == |writers|
  {
    if file == [] then []
    else
      var n := |file| - 1;
      WrittenBy(file[..n], writers[..n], t) + if writers[n] == Some(t) then [D.Provided(file[n])] else []
  }

  /** The act attempts to append the thread's next event. */
  predicate Attempts(w: World, act: Act) {
    act.Advance? && act.t in w.threads && NextEvent(w.threads[act.t]).Some?
  }

  /** How the last append went that each thread attempted. */
  type Faults = map<Tid, L.Fault>

  function NextFaults(w: World, faults: Faults, act: Act): Faults {
    if Attempts(w, act) then faults[act.t := act.fault] else faults
  }

  function LastFaults(sha: Sha, verbs: D.Verbs, init: Init, acts: seq<Act>): Faults {
    if acts == [] then map[]
    else
      var before := acts[..|acts| - 1];
      NextFaults(Run(sha, verbs, init, before), LastFaults(sha, verbs, init, before), acts[|acts| - 1])
  }

  /** What an append leaves of an event. */
  function Left(e: Event, fault: L.Fault): seq<Event> { if fault.WriteFails? then [] else [e] }

  /** The log accounts for a thread whose last append went as `fault` says: nothing before
      it announced itself or its denial, the pending event while its handler runs, and a
      closing event at the end, each unless its own write failed. */
  ghost predicate Accounts(th: Thread, fault: Option<L.Fault>, es: seq<Event>) {
    var pending := Allowed(th.req, PENDING);
    match th.pc
    case Begin => fault.None? && es == []
    case Judged(_) => fault.None? && es == []
    case Denying(_) => fault.None? && es == []
    case Announcing => fault.None? && es == []
    case Running => fault == Some(L.NoFault) && es == [pending]
    case Closing(_) => fault == Some(L.NoFault) && es == [pending]
    case Finished(AuditFailed) => fault.Some? && !fault.value.NoFault? && es == Left(pending, fault.value)
    case Finished(WasDenied(reason)) => fault.Some? && es == Left(Refused(th.req, reason), fault.value)
    case Finished(Completed(o)) => fault.Some? && es == [pending] + Left(Ended(th.req, o), fault.value)
  }

  function FaultOf(faults: Faults, t: Tid): Option<L.Fault> { if t in faults then Some(faults[t]) else None }

  ghost predicate AccountsFor(w: World, faults: Faults, t: Tid)
    requires |w.writers| == |w.file| && t in w.threads
  {
    Accounts(w.threads[t], FaultOf(faults, t), WrittenBy(w.file, w.writers, t))
  }

  /** Writers and faults are those of threads. */
  ghost predicate Aligned(w: World, faults: Faults) {
    && |w.writers| == |w.file| && faults.Keys <= w.threads.Keys
    && (forall i :: 0 <= i < |w.writers| && w.writers[i].Some? ==> w.writers[i].value in w.threads)
  }

  ghost predicate Accounted(w: World, faults: Faults) {
    Aligned(w, faults) && forall t :: t in w.threads ==> AccountsFor(w, faults, t)
  }

  lemma {:induction false} WrittenByNobody(file: seq<Event>, writers: seq<Option<Tid>>, t: Tid)
    requires |file| == |writers| && Some(t) !in writers
    ensures WrittenBy(file, writers, t) == []
  {
    if file != [] {
      WrittenByNobody(file[..|file| - 1], writers[..|file| - 1], t);
    }
  }

  lemma WrittenByAppend(file: seq<Event>, writers: seq<Option<Tid>>, e: Event, writer: Tid, t: Tid)
    requires |file| == |writers|
    ensures WrittenBy(file + [e], writers + [Some(writer)], t)
         == WrittenBy(file, writers, t) + if writer == t then [D.Provided(e)] else []
  {
  }

  /** Steps that neither append nor end the dispatch. */
  predicate SameStage(a: Pc, b: Pc) {
    || a == b
    || (a.Running? && b.Closing?)
    || ((a.Begin? || a.Judged?) && (b.Judged? || b.Denying? || b.Announcing?))
  }

  lemma StageAccount(th: Thread, pc: Pc, fault: Option<L.Fault>, es: seq<Event>)
    requires SameStage(th.pc, pc) && Accounts(th, fault, es)
    ensures Accounts(th.(pc := pc), fault, es)
  {
  }

  lemma CheckStage(verbs: D.Verbs, posture: string, th: Thread)
    ensures SameStage(th.pc, AfterCheck(verbs, posture, th))
  {
  }

  lemma MoveAccounts(w: World, faults: Faults, t: Tid, pc: Pc)
    requires Accounted(w, faults) && t in w.threads && SameStage(w.threads[t].pc, pc)
    ensures Accounted(MoveTo(w, t, pc), faults)
  {
    var w' := MoveTo(w, t, pc);
    forall u | u in w'.threads
      ensures AccountsFor(w', faults, u)
    {
      assert AccountsFor(w, faults, u);
      StageAccount(w.threads[u], w'.threads[u].pc, FaultOf(faults, u), WrittenBy(w.file, w.writers, u));
    }
  }

  lemma SpawnAccounts(w: World, faults: Faults, t: Tid, th: Thread)
    requires Accounted(w, faults) && t !in w.threads && th.pc == Begin
    ensures Accounted(w.(threads := w.threads[t := th]), faults)
  {
    var w' := w.(threads := w.threads[t := th]);
    WrittenByNobody(w.file, w.writers, t);
    forall u | u in w'.threads
      ensures AccountsFor(w', faults, u)
    {
      assert u == t || AccountsFor(w, faults, u);
    }
  }

  /** What the thread's own account gains by an append. */
  lemma OwnAccount(th: Thread, es: seq<Event>, fault: L.Fault)
    requires Accounts(th, None, es) || Accounts(th, Some(L.NoFault), es)
    requires NextEvent(th).Some?
    ensures Accounts(th.(pc := AfterAppend(th.pc, fault.NoFault?)), Some(fault), es + Left(NextEvent(th).value, fault))
  {
  }

  lemma RecordedWriting(sha: Sha, w: World, t: Tid, now: int, fault: L.Fault, u: Tid)
    requires |w.writers| == |w.file| && t in w.threads && NextEvent(w.threads[t]).Some?
    ensures
      var w' := Record(sha, w, t, now, fault);
      && |w'.writers| == |w'.file|
      && WrittenBy(w'.file, w'.writers, u)
         == WrittenBy(w.file, w.writers, u) + if u == t then Left(NextEvent(w.threads[t]).value, fault) else []
  {
    var e := NextEvent(w.threads[t]).value;
    var stamped := L.Stamp(sha, w.tip, e, now);
    assert D.Provided(stamped) == e;
    WrittenByAppend(w.file, w.writers, stamped, t, u);
  }

  lemma RecordAccountsFor(sha: Sha, w: World, faults: Faults, t: Tid, now: int, fault: L.Fault, u: Tid)
    requires |w.writers| == |w.file| && u in w.threads && AccountsFor(w, faults, u)
    requires t in w.threads && NextEvent(w.threads[t]).Some?
    ensures
      var w' := Record(sha, w, t, now, fault);
      |w'.writers| == |w'.file| && u in w'.threads && AccountsFor(w', faults[t := fault], u)
  {
    RecordedWriting(sha, w, t, now, fault, u);
    var es := WrittenBy(w.file, w.writers, u);
    if u == t {
      OwnAccount(w.threads[t], es, fault);
    } else {
      assert es + [] == es;
    }
  }

  lemma RecordAccounts(sha: Sha, w: World, faults: Faults, t: Tid, now: int, fault: L.Fault)
    requires Accounted(w, faults) && t in w.threads && NextEvent(w.threads[t]).Some?
    ensures Accounted(Record(sha, w, t, now, fault), faults[t := fault])
  {
    var w' := Record(sha, w, t, now, fault);
    RecordAligned(sha, w, faults, t, now, fault);
    forall u | u in w'.threads
      ensures AccountsFor(w', faults[t := fault], u)
    {
      RecordAccountsFor(sha, w, faults, t, now, fault, u);
    }
  }

  lemma RecordAligned(sha: Sha, w: World, faults: Faults, t: Tid, now: int, fault: L.Fault)
    requires Aligned(w, faults) && t in w.threads && NextEvent(w.threads[t]).Some?
    ensures Aligned(Record(sha, w, t, now, fault), faults[t := fault])
    ensures Record(sha, w, t, now, fault).threads.Keys == w.threads.Keys
  {
  }

  lemma ShiftAccounts(w: World, faults: Faults, posture: string)
    requires Accounted(w, faults)
    ensures Accounted(w.(posture := posture), faults)
  {
    forall t | t in w.threads
      ensures AccountsFor(w.(posture := posture), faults, t)
    {
      assert AccountsFor(w, faults, t);
    }
  }

  /** Every atomic step keeps every account exact. */
  lemma StepAccounts(sha: Sha, verbs: D.Verbs, w: World, faults: Faults, act: Act)
    requires Accounted(w, faults)
    ensures Accounted(Step(sha, verbs, w, act), NextFaults(w, faults, act))
  {
    match act
    case Spawn(t, req, role) =>
      if t !in w.threads {
        SpawnAccounts(w, faults, t, Thread(req, role, Begin));
      }
    case Shift(to) =>
      ShiftAccounts(w, faults, Posture.Next(w.posture, to));
    case Return(t, outcome) =>
      if t in w.threads && w.threads[t].pc == Running {
        MoveAccounts(w, faults, t, Closing(outcome));
      }
    case Advance(t, now, fault) =>
      if t in w.threads {
        if NextEvent(w.threads[t]).None? {
          CheckStage(verbs, w.posture, w.threads[t]);
          MoveAccounts(w, faults, t, AfterCheck(verbs, w.posture, w.threads[t]));
        } else {
          RecordAccounts(sha, w, faults, t, now, fault);
        }
      }
  }

  /** In every interleaving, with any faults, the log holds of every dispatch exactly what
      it should have written, less what its own failed writes left out. */
  lemma {:induction false} RunsAccount(sha: Sha, verbs: D.Verbs, init: Init, acts: seq<Act>)
    ensures Accounted(Run(sha, verbs, init, acts), LastFaults(sha, verbs, init, acts))
  {
    if acts != [] {
      var before := acts[..|acts| - 1];
      RunsAccount(sha, verbs, init, before);
      StepAccounts(sha, verbs, Run(sha, verbs, init, before), LastFaults(sha, verbs, init, before), acts[|acts| - 1]);
    }
  }

  ghost predicate Faultless(acts: seq<Act>) {
    forall k :: 0 <= k < |acts| && acts[k].Advance? ==> acts[k].fault.NoFault?
  }

  ghost predicate NoFaults(faults: Faults) {
    forall t: Tid :: FaultOf(faults, t).Some? ==> FaultOf(faults, t).value.NoFault?
  }

  lemma NoMoreFaults(w: World, faults: Faults, act: Act)
    requires NoFaults(faults) && (act.Advance? ==> act.fault.NoFault?)
    ensures NoFaults(NextFaults(w, faults, act))
  {
    forall t: Tid
      ensures var f := FaultOf(NextFaults(w, faults, act), t); f.Some? ==> f.value.NoFault?
    {
      assert FaultOf(faults, t).Some? ==> FaultOf(faults, t).value.NoFault?;
    }
  }

  lemma {:induction false} FaultlessFaults(sha: Sha, verbs: D.Verbs, init: Init, acts: seq<Act>)
    requires Faultless(acts)
    ensures NoFaults(LastFaults(sha, verbs, init, acts))
  {
    if acts != [] {
      var n := |acts| - 1;
      FaultlessFaults(sha, verbs, init, acts[..n]);
      NoMoreFaults(Run(sha, verbs, init, acts[..n]), LastFaults(sha, verbs, init, acts[..n]), acts[n]);
    }
  }

  /** The thread has finished, and its whole record is in the log. */
  predicate WholeRecord(th: Thread, es: seq<Event>) {
    match th.pc
    case Finished(WasDenied(reason)) => es == [Refused(th.req, reason)]
    case Finished(Completed(o)) => es == [Allowed(th.req, PENDING), Ended(th.req, o)]
    case _ => false
  }

  lemma WholeRecordOf(th: Thread, fault: Option<L.Fault>, es: seq<Event>)
    requires th.pc.Finished? && Accounts(th, fault, es) && (fault.Some? ==> fault.value.NoFault?)
    ensures WholeRecord(th, es)
  {
  }

  /** So, where no append fails, every finished dispatch has its whole record in the log,
      and nothing else. */
  lemma WholeRecords(sha: Sha, verbs: D.Verbs, init: Init, acts: seq<Act>, t: Tid)
    requires Faultless(acts) && t in Run(sha, verbs, init, acts).threads
    requires Run(sha, verbs, init, acts).threads[t].pc.Finished?
    ensures
      var w := Run(sha, verbs, init, acts);
      |w.writers| == |w.file| && WholeRecord(w.threads[t], WrittenBy(w.file, w.writers, t))
  {
    var w, faults := Run(sha, verbs, init, acts), LastFaults(sha, verbs, init, acts);
    RunsAccount(sha, verbs, init, acts);
    FaultlessFaults(sha, verbs, init, acts);
    assert AccountsFor(w, faults, t);
    WholeRecordOf(w.threads[t], FaultOf(faults, t), WrittenBy(w.file, w.writers, t));
  }

  /** The appends that the run attempts, in order, and when. */
  function Attempted(sha: Sha, verbs: D.Verbs, init: Init, acts: seq<Act>): seq<L.Attempt> {
    if acts == [] then []
    else
      var before, act := acts[..|acts| - 1], acts[|acts| - 1];
      var w := Run(sha, verbs, init, before);
      Attempted(sha, verbs, init, before)
      + if Attempts(w, act) then [L.Attempt(NextEvent(w.threads[act.t]).value, act.fault)] else []
  }

  function Times(sha: Sha, verbs: D.Verbs, init: Init, acts: seq<Act>): (r: seq<int>)
    ensures |r| == |Attempted(sha, verbs, init, acts)|
  {
    if acts == [] then []
    else
      var before, act := acts[..|acts| - 1], acts[|acts| - 1];
      Times(sha, verbs, init, before) + if Attempts(Run(sha, verbs, init, before), act) then [act.now] else []
  }

  /** The log of a concurrent run is that of one logger which makes the same attempts one
      after the other. */
  lemma {:induction false} RunIsOneSession(sha: Sha, verbs: D.Verbs, init: Init, acts: seq<Act>)
    ensures
      var w := Run(sha, verbs, init, acts);
      (w.file, w.tip) == L.AppendAll(sha, init.log, L.TipOf(init.log), Attempted(sha, verbs, init, acts),
                                     Times(sha, verbs, init, acts))
  {
    if acts != [] {
      var n := |acts| - 1;
      var w := Run(sha, verbs, init, acts[..n]);
      RunIsOneSession(sha, verbs, init, acts[..n]);
      if Attempts(w, acts[n]) {
        L.AppendAllSnoc(sha, init.log, L.TipOf(init.log),
          Attempted(sha, verbs, init, acts[..n]), Times(sha, verbs, init, acts[..n]),
          L.Attempt(NextEvent(w.threads[acts[n].t]).value, acts[n].fault), acts[n].now);
      } else {
        assert Attempted(sha, verbs, init, acts) == Attempted(sha, verbs, init, acts[..n]);
        assert Times(sha, verbs, init, acts) == Times(sha, verbs, init, acts[..n]);
      }
    }
  }

  /** In every interleaving with any faults, on any log, the log is a valid chain numbered
      from 0 if and only if it was one at the start and no line was put past one whose sync
      failed; the logger is at its end, unless the last line's sync failed. */
  lemma RunsKeepChain(sha: Sha, verbs: D.Verbs, init: Init, acts: seq<Act>)
    ensures
      var w, attempts := Run(sha, verbs, init, acts), Attempted(sha, verbs, init, acts);
      && (L.WellKept(sha, w.file) <==> L.WellKept(sha, init.log) && L.NonePastSync(attempts))
      && L.StandsAt(w.file, w.tip, L.Lags(attempts))
  {
    RunIsOneSession(sha, verbs, init, acts);
    L.AppendAllKeeps(sha, init.log, Attempted(sha, verbs, init, acts), Times(sha, verbs, init, acts));
  }

  /** The same of verification alone, where no line that the run stored is linked to its
      own hash. */
  lemma RunsVerify(sha: Sha, verbs: D.Verbs, init: Init, acts: seq<Act>)
    requires L.NoneSelfLinked(Run(sha, verbs, init, acts).file, |init.log|)
    ensures ValidChain(sha, Run(sha, verbs, init, acts).file)
       <==> ValidChain(sha, init.log) && L.NonePastSync(Attempted(sha, verbs, init, acts))
  {
    RunIsOneSession(sha, verbs, init, acts);
    L.AppendAllVerifies(sha, init.log, Attempted(sha, verbs, init, acts), Times(sha, verbs, init, acts));
  }

  lemma {:induction false} WriterOf(file: seq<Event>, writers: seq<Option<Tid>>, t: Tid, e: Event)
    returns (i: nat)
    requires |file| == |writers| && e in WrittenBy(file, writers, t)
    ensures i < |file| && writers[i] == Some(t) && D.Provided(file[i]) == e
  {
    var n := |file| - 1;
    if writers[n] == Some(t) && D.Provided(file[n]) == e {
      i := n;
    } else {
      i := WriterOf(file[..n], writers[..n], t, e);
    }
  }

  /** No handler runs without its own pending record, already in the log and written by
      that very dispatch, whatever faults there were. */
  lemma HandlerHasRecord(sha: Sha, verbs: D.Verbs, init: Init, acts: seq<Act>, t: Tid)
    returns (i: nat)
    requires t in Run(sha, verbs, init, acts).threads
    requires Run(sha, verbs, init, acts).threads[t].pc == Running
    ensures
      var w := Run(sha, verbs, init, acts);
      && i < |w.file| == |w.writers| && w.writers[i] == Some(t)
      && D.Provided(w.file[i]) == Allowed(w.threads[t].req, PENDING)
  {
    RunsAccount(sha, verbs, init, acts);
    var w := Run(sha, verbs, init, acts);
    assert AccountsFor(w, LastFaults(sha, verbs, init, acts), t);
    i := WriterOf(w.file, w.writers, t, Allowed(w.threads[t].req, PENDING));
  }

  /* ---- A dispatch is that of its caller, and gets on ---- */

  /** The `k`-th act starts the thread, with this request and role. */
  ghost predicate SpawnedAt(sha: Sha, verbs: D.Verbs, init: Init, acts: seq<Act>, t: Tid, th: Thread, k: nat)
    requires k < |acts|
  {
    acts[k] == Spawn(t, th.req, th.role) && t !in Run(sha, verbs, init, acts[..k]).threads
  }

  /** The `k`-th act ends the thread's handler, with this outcome. */
  ghost predicate ReturnedAt(sha: Sha, verbs: D.Verbs, init: Init, acts: seq<Act>, t: Tid, o: Outcome, k: nat)
    requires k < |acts|
  {
    var w := Run(sha, verbs, init, acts[..k]);
    acts[k] == Return(t, o) && t in w.threads && w.threads[t].pc == Running
  }

  /** How a handler has ended, once it has. */
  function EndOf(pc: Pc): Option<Outcome> {
    match pc
    case Closing(o) => Some(o)
    case Finished(Completed(o)) => Some(o)
    case _ => None
  }

  /** A thread is new by a Spawn, keeps its request and role, and has its outcome from
      before or by a Return out of Running. */
  lemma OriginStep(sha: Sha, verbs: D.Verbs, w: World, act: Act, t: Tid)
    requires t in Step(sha, verbs, w, act).threads
    ensures
      var th := Step(sha, verbs, w, act).threads[t];
      if t !in w.threads then act == Spawn(t, th.req, th.role) && th.pc == Begin
      else
        var was := w.threads[t];
        && was.req == th.req && was.role == th.role
        && (EndOf(th.pc).Some? && EndOf(was.pc) != EndOf(th.pc) ==>
              act == Return(t, EndOf(th.pc).value) && was.pc == Running)
  {
  }

  /** Every thread runs the request and has the role that its caller gave. */
  lemma {:induction false} ThreadIsSpawned(sha: Sha, verbs: D.Verbs, init: Init, acts: seq<Act>, t: Tid)
    returns (k: nat)
    requires t in Run(sha, verbs, init, acts).threads
    ensures k < |acts| && SpawnedAt(sha, verbs, init, acts, t, Run(sha, verbs, init, acts).threads[t], k)
    decreases |acts|
  {
    var n := |acts| - 1;
    var w := Run(sha, verbs, init, acts[..n]);
    OriginStep(sha, verbs, w, acts[n], t);
    if t in w.threads {
      k := ThreadIsSpawned(sha, verbs, init, acts[..n], t);
      assert acts[..n][..k] == acts[..k];
    } else {
      k := n;
    }
  }

  /** Every outcome that is recorded is the one with which the running handler ended. */
  lemma {:induction false} OutcomeIsReturned(sha: Sha, verbs: D.Verbs, init: Init, acts: seq<Act>, t: Tid)
    returns (k: nat)
    requires t in Run(sha, verbs, init, acts).threads
    requires EndOf(Run(sha, verbs, init, acts).threads[t].pc).Some?
    ensures k < |acts|
    ensures ReturnedAt(sha, verbs, init, acts, t, EndOf(Run(sha, verbs, init, acts).threads[t].pc).value, k)
    decreases |acts|
  {
    var n := |acts| - 1;
    var w := Run(sha, verbs, init, acts[..n]);
    OriginStep(sha, verbs, w, acts[n], t);
    if EndOf(w.threads[t].pc) == EndOf(Run(sha, verbs, init, acts).threads[t].pc) {
      k := OutcomeIsReturned(sha, verbs, init, acts[..n], t);
      assert acts[..n][..k] == acts[..k];
    } else {
      k := n;
    }
  }

  /** The posture of a run: what the requests to move lead to, from the one at the start. No
      dispatch moves it. */
  lemma PostureOfRun(sha: Sha, verbs: D.Verbs, init: Init, acts: seq<Act>, act: Act)
    ensures Run(sha, verbs, init, []).posture == init.posture
    ensures Run(sha, verbs, init, acts + [act]).posture ==
      if act.Shift? then Posture.Next(Run(sha, verbs, init, acts).posture, act.to)
      else Run(sha, verbs, init, acts).posture
  {
    RunOneMore(sha, verbs, init, acts, act);
  }

  /** How far a dispatch is from its end. */
  function Distance(pc: Pc): nat {
    match pc
    case Begin => 5
    case Judged(_) => 4
    case Denying(_) => 1
    case Announcing => 3
    case Running => 2
    case Closing(_) => 1
    case Finished(_) => 0
  }

  /** Every dispatch gets on: a step of its own brings it nearer to its end, and only its
      handler's return does while that runs. No other step moves it. */
  lemma StepsGetOn(sha: Sha, verbs: D.Verbs, w: World, act: Act, t: Tid)
    requires t in w.threads
    ensures t in Step(sha, verbs, w, act).threads
    ensures
      var was, th := w.threads[t].pc, Step(sha, verbs, w, act).threads[t].pc;
      if act.Advance? && act.t == t && !was.Running? && !was.Finished? then Distance(th) < Distance(was)
      else if act.Return? && act.t == t && was.Running? then th == Closing(act.outcome)
      else th == was
    ensures
      var was, th := w.threads[t].pc, Step(sha, verbs, w, act).threads[t].pc;
      was.Announcing? && act.Advance? && act.t == t ==>
        th == if act.fault.NoFault? then Running else Finished(AuditFailed)
  {
  }

  /* ---- Every decision was right at some instant inside its dispatch ---- */

  ghost predicate PermittedNow(verbs: D.Verbs, w: World, th: Thread) {
    Policy.Permits(verbs, w.posture, th.role, th.req.verb, th.req.objectRef)
  }

  /** What the thread has decided: that it may go on, or that it is denied. */
  predicate Accepted(th: Thread) {
    match th.pc
    case Judged(v) => Policy.LetsThrough(v, th.req.objectRef)
    case Announcing => true
    case Running => true
    case Closing(_) => true
    case Finished(r) => !r.WasDenied?
    case _ => false
  }

  predicate Rejected(th: Thread) {
    match th.pc
    case Judged(v) => !Policy.LetsThrough(v, th.req.objectRef)
    case Denying(_) => true
    case Finished(r) => r.WasDenied?
    case _ => false
  }

  /** Thread `t` was inside its dispatch before step `k`, and there the verb was
      permitted, or was not. */
  ghost predicate DecidedAt(sha: Sha, verbs: D.Verbs, init: Init, acts: seq<Act>, t: Tid, th: Thread,
                            k: nat, permitted: bool)
    requires k <= |acts|
  {
    var w := Run(sha, verbs, init, acts[..k]);
    && t in w.threads && w.threads[t] == Thread(th.req, th.role, Begin)
    && PermittedNow(verbs, w, th) == permitted
  }

  /** A thread that has decided either decided in this step, out of Begin and as the
      posture of this instant says, or had decided so before. */
  lemma DecisionStep(sha: Sha, verbs: D.Verbs, w: World, act: Act, t: Tid)
    requires t in Step(sha, verbs, w, act).threads
    requires var th := Step(sha, verbs, w, act).threads[t]; Accepted(th) || Rejected(th)
    ensures t in w.threads
    ensures
      var th, was := Step(sha, verbs, w, act).threads[t], w.threads[t];
      && was.req == th.req && was.role == th.role
      && (|| (was.pc == Begin && PermittedNow(verbs, w, th) == Accepted(th))
          || ((Accepted(was) || Rejected(was)) && Accepted(was) == Accepted(th)))
  {
  }

  lemma SpawnedBefore(sha: Sha, verbs: D.Verbs, init: Init, acts: seq<Act>, t: Tid, k: nat)
    requires k <= |acts| && t in Run(sha, verbs, init, acts[..k]).threads
    requires t in Run(sha, verbs, init, acts).threads
    requires
      var was, th := Run(sha, verbs, init, acts[..k]).threads[t], Run(sha, verbs, init, acts).threads[t];
      was.req == th.req && was.role == th.role
    ensures exists j :: 0 <= j < k && SpawnedAt(sha, verbs, init, acts, t, Run(sha, verbs, init, acts).threads[t], j)
  {
    var j := ThreadIsSpawned(sha, verbs, init, acts[..k], t);
    assert acts[..k][..j] == acts[..j];
    assert SpawnedAt(sha, verbs, init, acts, t, Run(sha, verbs, init, acts).threads[t], j);
  }

  /** A dispatch that went on was permitted, by role, capability, posture and object
      together, at an instant after it began; one that was denied was not permitted at
      such an instant. */
  lemma {:induction false} DecisionsAreJustified(sha: Sha, verbs: D.Verbs, init: Init, acts: seq<Act>, t: Tid)
    returns (k: nat)
    requires t in Run(sha, verbs, init, acts).threads
    requires var th := Run(sha, verbs, init, acts).threads[t]; Accepted(th) || Rejected(th)
    ensures k < |acts|
    ensures
      var th := Run(sha, verbs, init, acts).threads[t];
      DecidedAt(sha, verbs, init, acts, t, th, k, Accepted(th))
    ensures exists j :: 0 <= j < k && SpawnedAt(sha, verbs, init, acts, t, Run(sha, verbs, init, acts).threads[t], j)
    decreases |acts|
  {
    var n := |acts| - 1;
    DecisionStep(sha, verbs, Run(sha, verbs, init, acts[..n]), acts[n], t);
    if Run(sha, verbs, init, acts[..n]).threads[t].pc == Begin {
      k := n;
    } else {
      k := DecisionsAreJustified(sha, verbs, init, acts[..n], t);
      assert acts[..n][..k] == acts[..k];
    }
    SpawnedBefore(sha, verbs, init, acts, t, k);
  }

  /** The role part of a permission never lapses: whether an accepted dispatch is
      permitted now is for the posture of now to say, and for nothing else. */
  lemma {:induction false} StandingPermission(sha: Sha, verbs: D.Verbs, init: Init, acts: seq<Act>, t: Tid)
    requires t in Run(sha, verbs, init, acts).threads
    requires Accepted(Run(sha, verbs, init, acts).threads[t])
    ensures
      var w := Run(sha, verbs, init, acts);
      var th := w.threads[t];
      && th.req.verb in verbs && Policy.HasCapability(th.role, verbs[th.req.verb])
      && (PermittedNow(verbs, w, th)
          <==> Policy.LetsThrough(Posture.CapabilityVerdict(w.posture, verbs[th.req.verb]), th.req.objectRef))
  {
    var _ := DecisionsAreJustified(sha, verbs, init, acts, t);
  }

  /** Why a dispatch fails before any posture is looked at, if it does. */
  function EarlyReason(verbs: D.Verbs, th: Thread): Option<string> {
    if th.req.verb !in verbs then Some("verb.unknown")
    else if !Policy.HasCapability(th.role, verbs[th.req.verb]) then Some("rbac." + verbs[th.req.verb] + ".missing")
    else None
  }

  /** No posture, ForceOn included, rescues an unknown verb or a role without the
      capability: in every run, whatever the postures, a dispatch that was started with one
      gets no verdict, is never announced and never runs; it ends denied, with a reason code
      that does not depend on any posture. */
  lemma NoPostureRescues(sha: Sha, verbs: D.Verbs, init: Init, acts: seq<Act>, k: nat, t: Tid, req: Request,
                         role: string)
    requires k < |acts| && acts[k] == Spawn(t, req, role) && t !in Run(sha, verbs, init, acts[..k]).threads
    requires req.verb !in verbs || !Policy.HasCapability(role, verbs[req.verb])
    ensures
      var w := Run(sha, verbs, init, acts);
      var reason := if req.verb !in verbs then "verb.unknown" else "rbac." + verbs[req.verb] + ".missing";
      && t in w.threads && w.threads[t].req == req && w.threads[t].role == role
      && w.threads[t].pc in {Begin, Denying(reason), Finished(WasDenied(reason))}
  {
    StaysSpawned(sha, verbs, init, acts, k, t, req, role);
    EarlyDenied(sha, verbs, init, acts, t);
  }

  predicate IsFor(w: World, t: Tid, req: Request, role: string) {
    t in w.threads && w.threads[t].req == req && w.threads[t].role == role
  }

  lemma StaysFor(sha: Sha, verbs: D.Verbs, w: World, act: Act, t: Tid, req: Request, role: string)
    requires IsFor(w, t, req, role) || (t !in w.threads && act == Spawn(t, req, role))
    ensures IsFor(Step(sha, verbs, w, act), t, req, role)
  {
  }

  lemma {:induction false} StaysSpawned(sha: Sha, verbs: D.Verbs, init: Init, acts: seq<Act>, k: nat, t: Tid,
                                        req: Request, role: string)
    requires k < |acts| && acts[k] == Spawn(t, req, role) && t !in Run(sha, verbs, init, acts[..k]).threads
    ensures IsFor(Run(sha, verbs, init, acts), t, req, role)
    decreases |acts|
  {
    var n := |acts| - 1;
    if k < n {
      assert acts[..n][..k] == acts[..k];
      StaysSpawned(sha, verbs, init, acts[..n], k, t, req, role);
    }
    StaysFor(sha, verbs, Run(sha, verbs, init, acts[..n]), acts[n], t, req, role);
  }

  lemma {:induction false} EarlyDenied(sha: Sha, verbs: D.Verbs, init: Init, acts: seq<Act>, t: Tid)
    requires t in Run(sha, verbs, init, acts).threads
    requires EarlyReason(verbs, Run(sha, verbs, init, acts).threads[t]).Some?
    ensures
      var th := Run(sha, verbs, init, acts).threads[t];
      var reason := EarlyReason(verbs, th).value;
      th.pc == Begin || th.pc == Denying(reason) || th.pc == Finished(WasDenied(reason))
    decreases |acts|
  {
    var n := |acts| - 1;
    var w := Run(sha, verbs, init, acts[..n]);
    EarlyStep(sha, verbs, w, acts[n], t);
    if t in w.threads {
      EarlyDenied(sha, verbs, init, acts[..n], t);
    }
  }

  lemma EarlyStep(sha: Sha, verbs: D.Verbs, w: World, act: Act, t: Tid)
    requires t in Step(sha, verbs, w, act).threads
    ensures
      var th := Step(sha, verbs, w, act).threads[t];
      if t !in w.threads then th.pc == Begin
      else
        var was := w.threads[t];
        && was.req == th.req && was.role == th.role
        && (EarlyReason(verbs, th).Some? ==>
              var reason := EarlyReason(verbs, th).value;
              && (was.pc == Begin ==> th.pc == Begin || th.pc == Denying(reason))
              && (was.pc == Denying(reason) ==> th.pc == was.pc || th.pc == Finished(WasDenied(reason)))
              && (was.pc.Finished? ==> th.pc == was.pc))
  {
  }

  /* ---- The name in a posture denial is read later than the verdict ---- */

  function CapOf(verbs: D.Verbs, th: Thread): string
    requires th.req.verb in verbs
  {
    verbs[th.req.verb]
  }

  /** The reason code of a denial, recorded or about to be. */
  function DenialReason(th: Thread): Option<string> {
    match th.pc
    case Denying(reason) => Some(reason)
    case Finished(WasDenied(reason)) => Some(reason)
    case _ => None
  }

  /** The dispatch is denied, though verb and role would do: the posture denies it. */
  predicate PostureDenial(verbs: D.Verbs, th: Thread) {
    DenialReason(th).Some? && th.req.verb in verbs && Policy.HasCapability(th.role, CapOf(verbs, th))
  }

  /** In `w` the thread holds a denying verdict, and `later` names the posture of `w`. */
  predicate NamedHere(w: World, t: Tid, later: Thread)
    requires t in w.threads
  {
    var was := w.threads[t];
    && was.req == later.req && was.role == later.role && was.pc.Judged?
    && !Policy.LetsThrough(was.pc.verdict, later.req.objectRef)
    && DenialReason(later) == Some(Policy.PostureReason(w.posture, was.pc.verdict))
  }

  /** A thread with a verdict took it in this step, out of Begin, or has it from before;
      one with a posture's name in its denial read the name in this step or before. */
  lemma ReadingStep(sha: Sha, verbs: D.Verbs, w: World, act: Act, t: Tid)
    requires t in Step(sha, verbs, w, act).threads
    ensures
      var th := Step(sha, verbs, w, act).threads[t];
      && (th.pc.Judged? || PostureDenial(verbs, th) ==>
            t in w.threads && w.threads[t].req == th.req && w.threads[t].role == th.role)
      && (th.pc.Judged? ==>
            || w.threads[t] == th
            || (w.threads[t].pc == Begin && th.req.verb in verbs
                && th.pc.verdict == Posture.CapabilityVerdict(w.posture, CapOf(verbs, th))))
      && (PostureDenial(verbs, th) ==> DenialReason(w.threads[t]) == DenialReason(th) || NamedHere(w, t, th))
  {
  }

  /** The thread took its verdict from the posture of an instant at which it was in Begin. */
  lemma {:induction false} JudgedEarlier(sha: Sha, verbs: D.Verbs, init: Init, acts: seq<Act>, t: Tid)
    returns (j: nat)
    requires t in Run(sha, verbs, init, acts).threads
    requires Run(sha, verbs, init, acts).threads[t].pc.Judged?
    ensures j < |acts|
    ensures
      var w := Run(sha, verbs, init, acts[..j]);
      var th := Run(sha, verbs, init, acts).threads[t];
      && t in w.threads && w.threads[t] == Thread(th.req, th.role, Begin) && th.req.verb in verbs
      && th.pc.verdict == Posture.CapabilityVerdict(w.posture, CapOf(verbs, th))
    decreases |acts|
  {
    var n := |acts| - 1;
    ReadingStep(sha, verbs, Run(sha, verbs, init, acts[..n]), acts[n], t);
    if Run(sha, verbs, init, acts[..n]).threads[t] == Run(sha, verbs, init, acts).threads[t] {
      j := JudgedEarlier(sha, verbs, init, acts[..n], t);
      assert acts[..n][..j] == acts[..j];
    } else {
      j := n;
    }
  }

  lemma {:induction false} NameRead(sha: Sha, verbs: D.Verbs, init: Init, acts: seq<Act>, t: Tid)
    returns (k: nat)
    requires t in Run(sha, verbs, init, acts).threads
    requires PostureDenial(verbs, Run(sha, verbs, init, acts).threads[t])
    ensures k < |acts|
    ensures
      var w := Run(sha, verbs, init, acts[..k]);
      t in w.threads && NamedHere(w, t, Run(sha, verbs, init, acts).threads[t])
    decreases |acts|
  {
    var n := |acts| - 1;
    var w := Run(sha, verbs, init, acts[..n]);
    ReadingStep(sha, verbs, w, acts[n], t);
    if DenialReason(w.threads[t]) == DenialReason(Run(sha, verbs, init, acts).threads[t]) {
      k := NameRead(sha, verbs, init, acts[..n], t);
      assert acts[..n][..k] == acts[..k];
    } else {
      k := n;
    }
  }

  /** The two readings of a posture denial, for every run: at `j` the thread was in Begin
      and took the verdict that denies it, at `k` it held that verdict and read the name.
      The reason code names the posture that denied if and only if the posture was the
      same at both instants. */
  lemma DenialJoinsTwoReadings(sha: Sha, verbs: D.Verbs, init: Init, acts: seq<Act>, t: Tid)
    returns (j: nat, k: nat)
    requires t in Run(sha, verbs, init, acts).threads
    requires PostureDenial(verbs, Run(sha, verbs, init, acts).threads[t])
    ensures j < k < |acts|
    ensures
      var th := Run(sha, verbs, init, acts).threads[t];
      var wj, wk := Run(sha, verbs, init, acts[..j]), Run(sha, verbs, init, acts[..k]);
      var verdict := Posture.CapabilityVerdict(wj.posture, CapOf(verbs, th));
      && t in wj.threads && wj.threads[t] == Thread(th.req, th.role, Begin)
      && t in wk.threads && wk.threads[t] == Thread(th.req, th.role, Judged(verdict))
      && !PermittedNow(verbs, wj, th)
      && DenialReason(th) == Some(Policy.PostureReason(wk.posture, verdict))
      && (DenialReason(th) == Some(Policy.PostureReason(wj.posture, verdict)) <==> wk.posture == wj.posture)
  {
    k := NameRead(sha, verbs, init, acts, t);
    j := JudgedEarlier(sha, verbs, init, acts[..k], t);
    assert acts[..k][..j] == acts[..j];
    var wj, wk := Run(sha, verbs, init, acts[..j]), Run(sha, verbs, init, acts[..k]);
    Policy.PostureReasonInjective(wk.posture, wj.posture, wk.threads[t].pc.verdict);
  }

  function Go(t: Tid): Act { Advance(t, 0, L.NoFault) }

  lemma RunOneMore(sha: Sha, verbs: D.Verbs, init: Init, acts: seq<Act>, act: Act)
    ensures Run(sha, verbs, init, acts + [act]) == Step(sha, verbs, Run(sha, verbs, init, acts), act)
  {
  }

  /** Both cases happen: from every reachable state, a dispatch that the current posture
      denies, with a request to move between its two readings, gets a reason code that
      names the denying posture if and only if the move is not permitted. */
  lemma ReasonCanMisname(sha: Sha, verbs: D.Verbs, init: Init, acts: seq<Act>,
                         t: Tid, req: Request, role: string, to: string)
    requires t !in Run(sha, verbs, init, acts).threads
    requires req.verb in verbs && Policy.HasCapability(role, verbs[req.verb])
    requires !Policy.Permits(verbs, Run(sha, verbs, init, acts).posture, role, req.verb, req.objectRef)
    ensures
      var p := Run(sha, verbs, init, acts).posture;
      var w := Run(sha, verbs, init, acts + [Spawn(t, req, role)] + [Go(t)] + [Shift(to)] + [Go(t)]);
      && t in w.threads && PostureDenial(verbs, w.threads[t])
      && (DenialReason(w.threads[t]) == Some(Policy.PostureReason(p, Posture.CapabilityVerdict(p, verbs[req.verb])))
          <==> !Posture.Permitted(p, to))
  {
    var p := Run(sha, verbs, init, acts).posture;
    var a1 := acts + [Spawn(t, req, role)];
    RunOneMore(sha, verbs, init, acts, Spawn(t, req, role));
    RunOneMore(sha, verbs, init, a1, Go(t));
    RunOneMore(sha, verbs, init, a1 + [Go(t)], Shift(to));
    RunOneMore(sha, verbs, init, a1 + [Go(t)] + [Shift(to)], Go(t));
    Posture.NextMoves(p, to);
    Policy.PostureReasonInjective(p, Posture.Next(p, to), Posture.CapabilityVerdict(p, verbs[req.verb]));
  }

  /** Both cases happen: from every reachable state, a permitted dispatch can be running
      its handler in the posture that any request leads to, and is then permitted if and
      only if that posture permits it. */
  lemma HandlerCanOutlivePermission(sha: Sha, verbs: D.Verbs, init: Init, acts: seq<Act>,
                                    t: Tid, req: Request, role: string, to: string)
    requires t !in Run(sha, verbs, init, acts).threads
    requires Policy.Permits(verbs, Run(sha, verbs, init, acts).posture, role, req.verb, req.objectRef)
    ensures
      var next := Posture.Next(Run(sha, verbs, init, acts).posture, to);
      var w := Run(sha, verbs, init, acts + [Spawn(t, req, role)] + [Go(t)] + [Go(t)] + [Go(t)] + [Shift(to)]);
      && t in w.threads && w.threads[t].pc == Running
      && (PermittedNow(verbs, w, w.threads[t]) <==> Policy.Permits(verbs, next, role, req.verb, req.objectRef))
  {
    var a1 := acts + [Spawn(t, req, role)];
    RunOneMore(sha, verbs, init, acts, Spawn(t, req, role));
    RunOneMore(sha, verbs, init, a1, Go(t));
    RunOneMore(sha, verbs, init, a1 + [Go(t)], Go(t));
    RunOneMore(sha, verbs, init, a1 + [Go(t)] + [Go(t)], Go(t));
    RunOneMore(sha, verbs, init, a1 + [Go(t)] + [Go(t)] + [Go(t)], Shift(to));
  }

  /** There are such postures: SIEGE denies a network verb that NORMAL permits. */
  lemma PosturesDisagree()
    ensures
      var verbs := map["SSH" := "cap.net"];
      && Posture.Next(Posture.NORMAL, Posture.SIEGE) == Posture.SIEGE
      && Posture.Next(Posture.SIEGE, Posture.NORMAL) == Posture.NORMAL
      && Policy.Permits(verbs, Posture.NORMAL, Policy.OPERATOR, "SSH", "ssh:host1")
      && !Policy.Permits(verbs, Posture.SIEGE, Policy.OPERATOR, "SSH", "ssh:host1")
  {
  }
}
