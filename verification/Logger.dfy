/** The audit log writer: opening, appending and reopening, with the faults that a
    write or a sync can show. */
module Logger {
  import opened Common
  import opened Audit

  /** How an append can go wrong. A failed marshal or write leaves the file as it was;
      a failed sync leaves the line in the file but is reported as an error. */
  datatype Fault = NoFault | WriteFails | SyncFails

  /* ---- The logger as a value ---- */

  datatype Tip = Tip(seqNo: int, lastHash: string)

  /** What Open takes from the events already in the file. */
  function TipOf(es: seq<Event>): Tip {
    if es == [] then Tip(0, GENESIS) else Tip(es[|es| - 1].seqNo + 1, es[|es| - 1].hash)
  }

  /** The event as it is written: seq, ts, prev_hash and hash are the logger's. */
  function Stamp(sha: Sha, s: Tip, e: Event, now: int): (r: Event)
    ensures r.seqNo == s.seqNo && r.prevHash == s.lastHash && r.hash == ComputeHash(sha, r)
    ensures r == e.(seqNo := r.seqNo, ts := now, prevHash := r.prevHash, hash := r.hash)
  {
    var r := e.(seqNo := s.seqNo, ts := now, prevHash := s.lastHash);
    assert Fields(r.(hash := ComputeHash(sha, r))) == Fields(r);
    r.(hash := ComputeHash(sha, r))
  }

  /** The file a logger keeps: a valid chain numbered from 0. */
  ghost predicate WellKept(sha: Sha, es: seq<Event>) {
    ValidChain(sha, es) && forall i :: 0 <= i < |es| ==> es[i].seqNo == i
  }

  lemma TipOfWellKept(sha: Sha, es: seq<Event>)
    requires WellKept(sha, es)
    ensures TipOf(es) == Tip(|es|, LinkAt(es, |es|))
  {
  }

  /** Appending through a logger that is at the file's end keeps the file and leaves
      the logger at its end. */
  lemma StampExtends(sha: Sha, es: seq<Event>, e: Event, now: int)
    requires WellKept(sha, es)
    ensures
      var r := Stamp(sha, TipOf(es), e, now);
      WellKept(sha, es + [r]) && TipOf(es + [r]) == Tip(|es| + 1, r.hash)
  {
    TipOfWellKept(sha, es);
    ChainExtends(sha, es, Stamp(sha, TipOf(es), e, now));
  }

  /** Verification does not look at the numbering: a chain with any number on its last
      event can be accepted, though a logger writes only the file's length there. */
  lemma NumberingIsNotVerified(sha: Sha, es: seq<Event>, e: Event, n: int) returns (r: Event)
    requires ValidChain(sha, es)
    ensures r.seqNo == n && r.verb == e.verb && ValidChain(sha, es + [r])
    ensures WellKept(sha, es + [r]) <==> WellKept(sha, es) && n == |es|
  {
    r := Stamp(sha, Tip(n, LinkAt(es, |es|)), e, 0);
    ChainExtends(sha, es, r);
    assert (es + [r])[|es|] == r;
    assert forall i :: 0 <= i < |es| ==> (es + [r])[i] == es[i];
  }

  /* ---- The logger object ---- */

  class LogFile {
    var events: seq<Event>

    constructor ()
      ensures events == []
    {
      events := [];
    }
  }

  class Logger {
    const file: LogFile
    var seqNo: int
    var lastHash: string

    ghost function At(): Tip
      reads this
    {
      Tip(seqNo, lastHash)
    }

    /** Open */
    constructor (file: LogFile)
      ensures this.file == file && At() == TipOf(file.events)
      ensures file.events == [] ==> seqNo == 0 && lastHash == "sha256:genesis"
      ensures file.events != [] ==>
        var last := file.events[|file.events| - 1];
        seqNo == last.seqNo + 1 && lastHash == last.hash
    {
      this.file := file;
      seqNo, lastHash := 0, GENESIS;
      if |file.events| > 0 {
        var last := file.events[|file.events| - 1];
        seqNo, lastHash := last.seqNo + 1, last.hash;
      }
    }

    /** Log: the line is in the file whenever no error is returned, and memory moves
        only then. */
    method Log(sha: Sha, e: Event, now: int, fault: Fault) returns (ok: bool)
      modifies this, file
      ensures ok <==> fault == NoFault
      ensures (file.events, At()) == Append(sha, old(file.events), old(At()), e, now, fault)
      ensures fault != SyncFails && WellKept(sha, old(file.events)) && old(At()) == TipOf(old(file.events)) ==>
        WellKept(sha, file.events) && At() == TipOf(file.events)
    {
      StampExtendsIf(sha, file.events, At(), e, now);
      var r := e.(seqNo := seqNo, ts := now, prevHash := lastHash);
      r := r.(hash := ComputeHash(sha, r));
      assert r == Stamp(sha, At(), e, now);
      if fault == WriteFails {
        return false;
      }
      file.events := file.events + [r];
      if fault == SyncFails {
        return false;
      }
      seqNo := seqNo + 1;
      lastHash := r.hash;
      return true;
    }

    /** Allow */
    method Allow(sha: Sha, actorId: string, sessionId: string, deviceId: string, verb: string, objectRef: string,
                 result: string, meta: map<string, string>, now: int, fault: Fault) returns (ok: bool)
      modifies this, file
      ensures ok <==> fault == NoFault
      ensures (file.events, At()) == Append(sha, old(file.events), old(At()),
        AllowEvent(actorId, sessionId, deviceId, verb, objectRef, result, meta), now, fault)
      ensures fault != WriteFails ==>
        && |file.events| == |old(file.events)| + 1 && old(file.events) <= file.events
        && var e := file.events[|old(file.events)|];
           && e.actorId == actorId && e.sessionId == sessionId && e.deviceId == deviceId && e.verb == verb
           && e.objectRef == objectRef && e.decision == "allow" && e.reasonCode == "" && e.result == result
           && e.meta == meta && e.ts == now
    {
      ok := Log(sha, AllowEvent(actorId, sessionId, deviceId, verb, objectRef, result, meta), now, fault);
    }

    /** Deny */
    method Deny(sha: Sha, actorId: string, sessionId: string, deviceId: string, verb: string, objectRef: string,
                reasonCode: string, meta: map<string, string>, now: int, fault: Fault) returns (ok: bool)
      modifies this, file
      ensures ok <==> fault == NoFault
      ensures (file.events, At()) == Append(sha, old(file.events), old(At()),
        DenyEvent(actorId, sessionId, deviceId, verb, objectRef, reasonCode, meta), now, fault)
      ensures fault != WriteFails ==>
        && |file.events| == |old(file.events)| + 1 && old(file.events) <= file.events
        && var e := file.events[|old(file.events)|];
           && e.actorId == actorId && e.sessionId == sessionId && e.deviceId == deviceId && e.verb == verb
           && e.objectRef == objectRef && e.decision == "deny" && e.reasonCode == reasonCode && e.result == "failure"
           && e.meta == meta && e.ts == now
    {
      ok := Log(sha, DenyEvent(actorId, sessionId, deviceId, verb, objectRef, reasonCode, meta), now, fault);
    }
  }

  function AllowEvent(actorId: string, sessionId: string, deviceId: string, verb: string, objectRef: string,
                      result: string, meta: map<string, string>): Event {
    Event(0, 0, actorId, sessionId, deviceId, verb, objectRef, ALLOW, "", result, meta, "", "")
  }

  function DenyEvent(actorId: string, sessionId: string, deviceId: string, verb: string, objectRef: string,
                     reasonCode: string, meta: map<string, string>): Event {
    Event(0, 0, actorId, sessionId, deviceId, verb, objectRef, DENY, reasonCode, FAILURE, meta, "", "")
  }

  function Append(sha: Sha, es: seq<Event>, s: Tip, e: Event, now: int, fault: Fault): (r: (seq<Event>, Tip)) {
    var w := Stamp(sha, s, e, now);
    match fault
    case NoFault => (es + [w], Tip(s.seqNo + 1, w.hash))
    case WriteFails => (es, s)
    case SyncFails => (es + [w], s)
  }

  lemma StampExtendsIf(sha: Sha, es: seq<Event>, s: Tip, e: Event, now: int)
    ensures WellKept(sha, es) && s == TipOf(es) ==>
      var r := Stamp(sha, s, e, now);
      WellKept(sha, es + [r]) && TipOf(es + [r]) == Tip(s.seqNo + 1, r.hash)
  {
    if WellKept(sha, es) && s == TipOf(es) {
      StampExtends(sha, es, e, now);
      TipOfWellKept(sha, es);
    }
  }

  /* ---- Runs of sessions ---- */

  datatype Act = Open | Log(e: Event, now: int, fault: Fault) | Close

  /** The file, and the open logger if there is one. */
  datatype World = World(file: seq<Event>, logger: Option<Tip>)

  function Step(sha: Sha, w: World, act: Act): World {
    match act
    case Open => w.(logger := Some(TipOf(w.file)))
    case Close => w.(logger := None)
    case Log(e, now, fault) =>
      if w.logger == None then w
      else
        var (file, s) := Append(sha, w.file, w.logger.value, e, now, fault);
        World(file, Some(s))
  }

  function Run(sha: Sha, acts: seq<Act>): World {
    if acts == [] then World([], None) else Step(sha, Run(sha, acts[..|acts| - 1]), acts[|acts| - 1])
  }

  /* ---- When a run keeps the log ---- */

  /** A logger is open after these acts. */
  predicate IsOpen(acts: seq<Act>) {
    acts != [] &&
    match acts[|acts| - 1]
    case Open => true
    case Close => false
    case Log(_, _, _) => IsOpen(acts[..|acts| - 1])
  }

  /** The open logger is behind its file: the last line it put there failed its sync,
      and there has been no reopening since. */
  predicate Behind(acts: seq<Act>) {
    acts != [] &&
    match acts[|acts| - 1]
    case Log(_, _, SyncFails) => IsOpen(acts[..|acts| - 1])
    case Log(_, _, WriteFails) => Behind(acts[..|acts| - 1])
    case _ => false
  }

  /** The `k`-th act puts a line into the file. */
  predicate Appends(acts: seq<Act>, k: nat)
    requires k < |acts|
  {
    acts[k].Log? && !acts[k].fault.WriteFails? && IsOpen(acts[..k])
  }

  /** The `k`-th act puts a line into the file through a logger that is behind it. */
  predicate StaleAppend(acts: seq<Act>, k: nat)
    requires k < |acts|
  {
    Appends(acts, k) && Behind(acts[..k])
  }

  /** The event's hash is the hash that it is itself chained to. */
  predicate SelfLinked(e: Event) { e.hash == e.prevHash }

  /** Where the logger stood that wrote the last line. */
  function WrittenFrom(es: seq<Event>): Tip
    requires es != []
  {
    Tip(es[|es| - 1].seqNo, es[|es| - 1].prevHash)
  }

  /** In every run the open logger is at the file's end or, when it is behind, where the
      last line was written from. */
  lemma {:induction false} LoggerPosition(sha: Sha, acts: seq<Act>)
    ensures
      var w := Run(sha, acts);
      && (w.logger.Some? <==> IsOpen(acts))
      && (Behind(acts) ==> IsOpen(acts) && w.file != [])
      && (IsOpen(acts) ==> w.logger == Some(if Behind(acts) then WrittenFrom(w.file) else TipOf(w.file)))
  {
    if acts != [] {
      LoggerPosition(sha, acts[..|acts| - 1]);
    }
  }

  /** A logger stands at the file's end or, when behind, where the last line was written
      from. */
  predicate StandsAt(es: seq<Event>, s: Tip, behind: bool) {
    if behind then es != [] && s == WrittenFrom(es) else s == TipOf(es)
  }

  /** What one append does to the log, from wherever the logger stands: from the file's
      end it keeps it; from behind it repeats a number, and keeps the chain exactly when
      the last line is linked to its own hash. */
  lemma AppendAt(sha: Sha, es: seq<Event>, s: Tip, behind: bool, e: Event, now: int)
    requires StandsAt(es, s, behind)
    ensures
      var es' := es + [Stamp(sha, s, e, now)];
      if behind then
        && !WellKept(sha, es')
        && (ValidChain(sha, es') <==> ValidChain(sha, es) && SelfLinked(es[|es| - 1]))
      else
        && (WellKept(sha, es') <==> WellKept(sha, es))
        && (ValidChain(sha, es') <==> ValidChain(sha, es))
  {
    var r := Stamp(sha, s, e, now);
    ExtendedChain(sha, es, r);
    assert (es + [r])[|es|] == r;
    assert es != [] ==> (es + [r])[|es| - 1] == es[|es| - 1];
  }

  /** So in every run. */
  lemma AppendFrom(sha: Sha, acts: seq<Act>, e: Event, now: int)
    requires IsOpen(acts)
    ensures
      var w := Run(sha, acts);
      && w.logger.Some?
      && var es := w.file + [Stamp(sha, w.logger.value, e, now)];
         if Behind(acts) then
           && w.file != [] && !WellKept(sha, es)
           && (ValidChain(sha, es) <==> ValidChain(sha, w.file) && SelfLinked(w.file[|w.file| - 1]))
         else
           && (WellKept(sha, es) <==> WellKept(sha, w.file))
           && (ValidChain(sha, es) <==> ValidChain(sha, w.file))
  {
    LoggerPosition(sha, acts);
    var w := Run(sha, acts);
    AppendAt(sha, w.file, w.logger.value, Behind(acts), e, now);
  }

  lemma ExtendedChain(sha: Sha, es: seq<Event>, r: Event)
    ensures ValidChain(sha, es + [r])
       <==> ValidChain(sha, es) && r.prevHash == LinkAt(es, |es|) && r.hash == ComputeHash(sha, r)
    ensures WellKept(sha, es + [r]) <==> WellKept(sha, es) && ValidChain(sha, es + [r]) && r.seqNo == |es|
  {
    var all := es + [r];
    assert all[..|es|] == es && all[|es|] == r;
    assert forall i :: 0 <= i < |es| ==> all[i] == es[i];
    if ValidChain(sha, all) {
      PrefixValid(sha, all, |es|);
    }
    if ValidChain(sha, es) {
      ChainExtends(sha, es, r);
    }
  }

  lemma StepFile(sha: Sha, w: World, act: Act)
    ensures Step(sha, w, act).file ==
      if w.logger.Some? && act.Log? && !act.fault.WriteFails? then
        w.file + [Stamp(sha, w.logger.value, act.e, act.now)]
      else w.file
  {
  }

  /** Either the last act appends the event that the logger stamps, or the file stays. */
  lemma LastAct(sha: Sha, acts: seq<Act>)
    requires acts != []
    ensures
      var n := |acts| - 1;
      var was := Run(sha, acts[..n]);
      if Appends(acts, n) then
        && was.logger.Some?
        && Run(sha, acts).file == was.file + [Stamp(sha, was.logger.value, acts[n].e, acts[n].now)]
      else
        Run(sha, acts).file == was.file
  {
    var n := |acts| - 1;
    LoggerPosition(sha, acts[..n]);
    StepFile(sha, Run(sha, acts[..n]), acts[n]);
  }

  /** No line is put into the file by a logger that is behind it. */
  ghost predicate NeverStale(acts: seq<Act>) {
    forall k :: 0 <= k < |acts| ==> !StaleAppend(acts, k)
  }

  lemma NeverStaleLast(acts: seq<Act>)
    requires acts != []
    ensures NeverStale(acts) <==> NeverStale(acts[..|acts| - 1]) && !StaleAppend(acts, |acts| - 1)
  {
    StalePrefix(acts, |acts| - 1);
  }

  /** Over every run of sessions with any faults, the file verifies and has seq 0..n-1 if
      and only if no line was put into it by a logger that was behind it; an open logger
      that is not behind stands at the end. */
  lemma {:induction false} SessionsKeepTheLog(sha: Sha, acts: seq<Act>)
    ensures WellKept(sha, Run(sha, acts).file) <==> NeverStale(acts)
    ensures
      var w := Run(sha, acts);
      WellKept(sha, w.file) && IsOpen(acts) && !Behind(acts) ==>
        w.logger == Some(Tip(|w.file|, LinkAt(w.file, |w.file|)))
  {
    LoggerPosition(sha, acts);
    if acts != [] {
      var n := |acts| - 1;
      var before := acts[..n];
      SessionsKeepTheLog(sha, before);
      NeverStaleLast(acts);
      LastAct(sha, acts);
      if Appends(acts, n) {
        AppendFrom(sha, before, acts[n].e, acts[n].now);
      }
    }
  }

  lemma StalePrefix(acts: seq<Act>, n: nat)
    requires n <= |acts|
    ensures forall k :: 0 <= k < n ==> StaleAppend(acts[..n], k) == StaleAppend(acts, k)
  {
    forall k | 0 <= k < n
      ensures StaleAppend(acts[..n], k) == StaleAppend(acts, k)
    {
      assert acts[..n][..k] == acts[..k];
    }
  }

  /** The `k`-th act is not a stale append, or its line comes after a self-linked one. */
  ghost predicate LinksAnyway(sha: Sha, acts: seq<Act>, k: nat)
    requires k < |acts|
  {
    var file := Run(sha, acts[..k]).file;
    StaleAppend(acts, k) ==> file != [] && SelfLinked(file[|file| - 1])
  }

  ghost predicate AllLink(sha: Sha, acts: seq<Act>) {
    forall k :: 0 <= k < |acts| ==> LinksAnyway(sha, acts, k)
  }

  lemma AllLinkLast(sha: Sha, acts: seq<Act>)
    requires acts != []
    ensures AllLink(sha, acts) <==> AllLink(sha, acts[..|acts| - 1]) && LinksAnyway(sha, acts, |acts| - 1)
  {
    var n := |acts| - 1;
    StalePrefix(acts, n);
    forall k | 0 <= k < n
      ensures LinksAnyway(sha, acts[..n], k) == LinksAnyway(sha, acts, k)
    {
      assert acts[..n][..k] == acts[..k];
    }
  }

  /** Whether the last act keeps the chain. */
  lemma ChainAfterLast(sha: Sha, acts: seq<Act>)
    requires acts != []
    ensures ValidChain(sha, Run(sha, acts).file)
       <==> ValidChain(sha, Run(sha, acts[..|acts| - 1]).file) && LinksAnyway(sha, acts, |acts| - 1)
  {
    var n := |acts| - 1;
    LastAct(sha, acts);
    if Appends(acts, n) {
      AppendFrom(sha, acts[..n], acts[n].e, acts[n].now);
    }
  }

  /** Over every run with any faults, verification accepts the file if and only if every
      line put there from behind came after a line linked to its own hash. */
  lemma {:induction false} ChainOverRuns(sha: Sha, acts: seq<Act>)
    ensures ValidChain(sha, Run(sha, acts).file) <==> AllLink(sha, acts)
  {
    if acts != [] {
      ChainOverRuns(sha, acts[..|acts| - 1]);
      AllLinkLast(sha, acts);
      ChainAfterLast(sha, acts);
    }
  }

  lemma {:induction false} FilesGrow(sha: Sha, acts: seq<Act>, k: nat)
    requires k <= |acts|
    ensures Run(sha, acts[..k]).file <= Run(sha, acts).file
    decreases |acts|
  {
    if k == |acts| {
      assert acts[..k] == acts;
    } else {
      var before := acts[..|acts| - 1];
      assert before[..k] == acts[..k];
      FilesGrow(sha, before, k);
      LastAct(sha, acts);
    }
  }

  /** So, where no stored line is linked to its own hash, verification accepts the file if
      and only if nothing was logged past a failed sync without reopening. */
  lemma LoggingPastFailedSync(sha: Sha, acts: seq<Act>)
    requires forall i :: 0 <= i < |Run(sha, acts).file| ==> !SelfLinked(Run(sha, acts).file[i])
    ensures ValidChain(sha, Run(sha, acts).file) <==> NeverStale(acts)
  {
    ChainOverRuns(sha, acts);
    forall k | 0 <= k < |acts|
      ensures LinksAnyway(sha, acts, k) <==> !StaleAppend(acts, k)
    {
      FilesGrow(sha, acts, k);
      var file := Run(sha, acts[..k]).file;
      assert file != [] ==> file[|file| - 1] == Run(sha, acts).file[|file| - 1];
    }
  }

  /* ---- Many appends through one logger ---- */

  datatype Attempt = Attempt(e: Event, fault: Fault)

  /** The file and the logger after the attempts, made at the given times. */
  function AppendAll(sha: Sha, es: seq<Event>, s: Tip, attempts: seq<Attempt>, times: seq<int>)
    : (r: (seq<Event>, Tip))
    requires |times| == |attempts|
  {
    if attempts == [] then (es, s)
    else
      var n := |attempts| - 1;
      var (es', s') := AppendAll(sha, es, s, attempts[..n], times[..n]);
      Append(sha, es', s', attempts[n].e, times[n], attempts[n].fault)
  }

  lemma AppendAllSnoc(sha: Sha, es: seq<Event>, s: Tip, a: seq<Attempt>, times: seq<int>, x: Attempt, now: int)
    requires |times| == |a|
    ensures
      var (es', s') := AppendAll(sha, es, s, a, times);
      AppendAll(sha, es, s, a + [x], times + [now]) == Append(sha, es', s', x.e, now, x.fault)
  {
    assert (a + [x])[..|a|] == a && (times + [now])[..|a|] == times;
  }

  lemma SnocOfAppend<T>(a: seq<T>, b: seq<T>)
    requires b != []
    ensures a + b == (a + b[..|b| - 1]) + [b[|b| - 1]]
  {
  }

  lemma {:induction false} AppendAllTwice(sha: Sha, es: seq<Event>, s: Tip, a: seq<Attempt>, s1: seq<int>,
                                          b: seq<Attempt>, s2: seq<int>)
    requires |a| == |s1| && |b| == |s2|
    ensures
      var (es', s') := AppendAll(sha, es, s, a, s1);
      AppendAll(sha, es, s, a + b, s1 + s2) == AppendAll(sha, es', s', b, s2)
    decreases |b|
  {
    if b == [] {
      assert a + b == a && s1 + s2 == s1;
    } else {
      var n := |b| - 1;
      AppendAllTwice(sha, es, s, a, s1, b[..n], s2[..n]);
      SnocOfAppend(a, b);
      SnocOfAppend(s1, s2);
      AppendAllSnoc(sha, es, s, a + b[..n], s1 + s2[..n], b[n], s2[n]);
    }
  }

  /** The last line that the attempts put into the file failed its sync. */
  predicate Lags(attempts: seq<Attempt>) {
    attempts != [] &&
    match attempts[|attempts| - 1].fault
    case NoFault => false
    case SyncFails => true
    case WriteFails => Lags(attempts[..|attempts| - 1])
  }

  predicate AppendsPastSync(attempts: seq<Attempt>, k: nat)
    requires k < |attempts|
  {
    !attempts[k].fault.WriteFails? && Lags(attempts[..k])
  }

  /** No line is put into the file past a line whose sync failed. */
  ghost predicate NonePastSync(attempts: seq<Attempt>) {
    forall k :: 0 <= k < |attempts| ==> !AppendsPastSync(attempts, k)
  }

  lemma NonePastSyncLast(attempts: seq<Attempt>)
    requires attempts != []
    ensures
      var n := |attempts| - 1;
      NonePastSync(attempts) <==> NonePastSync(attempts[..n]) && !AppendsPastSync(attempts, n)
  {
    var n := |attempts| - 1;
    forall k | 0 <= k < n
      ensures AppendsPastSync(attempts[..n], k) == AppendsPastSync(attempts, k)
    {
      assert attempts[..n][..k] == attempts[..k];
    }
  }

  /** A logger at the end of its file keeps the log through any attempts exactly when none
      of them puts a line past one whose sync failed. */
  lemma {:induction false} AppendAllKeeps(sha: Sha, es: seq<Event>, attempts: seq<Attempt>, times: seq<int>)
    requires |times| == |attempts|
    ensures
      var (es', s') := AppendAll(sha, es, TipOf(es), attempts, times);
      && StandsAt(es', s', Lags(attempts))
      && (WellKept(sha, es') <==> WellKept(sha, es) && NonePastSync(attempts))
    decreases |attempts|
  {
    if attempts != [] {
      var n := |attempts| - 1;
      AppendAllKeeps(sha, es, attempts[..n], times[..n]);
      NonePastSyncLast(attempts);
      var (es', s') := AppendAll(sha, es, TipOf(es), attempts[..n], times[..n]);
      AppendAt(sha, es', s', Lags(attempts[..n]), attempts[n].e, times[n]);
    }
  }

  lemma {:induction false} AppendAllGrows(sha: Sha, es: seq<Event>, s: Tip, attempts: seq<Attempt>, times: seq<int>)
    requires |times| == |attempts|
    ensures
      var es' := AppendAll(sha, es, s, attempts, times).0;
      es <= es' && (Lags(attempts) ==> |es| < |es'|)
    decreases |attempts|
  {
    if attempts != [] {
      var n := |attempts| - 1;
      AppendAllGrows(sha, es, s, attempts[..n], times[..n]);
    }
  }

  /** None of the lines from the `n`-th on is linked to its own hash. */
  ghost predicate NoneSelfLinked(es: seq<Event>, n: nat) {
    forall i :: n <= i < |es| ==> !SelfLinked(es[i])
  }

  /** The same of verification alone, where no line that is put there is linked to its own
      hash. */
  lemma {:induction false} AppendAllVerifies(sha: Sha, es: seq<Event>, attempts: seq<Attempt>, times: seq<int>)
    requires |times| == |attempts|
    requires NoneSelfLinked(AppendAll(sha, es, TipOf(es), attempts, times).0, |es|)
    ensures ValidChain(sha, AppendAll(sha, es, TipOf(es), attempts, times).0)
       <==> ValidChain(sha, es) && NonePastSync(attempts)
    decreases |attempts|
  {
    if attempts != [] {
      var n := |attempts| - 1;
      var (es', s') := AppendAll(sha, es, TipOf(es), attempts[..n], times[..n]);
      assert es' <= AppendAll(sha, es, TipOf(es), attempts, times).0;
      AppendAllVerifies(sha, es, attempts[..n], times[..n]);
      AppendAllKeeps(sha, es, attempts[..n], times[..n]);
      AppendAllGrows(sha, es, TipOf(es), attempts[..n], times[..n]);
      NonePastSyncLast(attempts);
      AppendAt(sha, es', s', Lags(attempts[..n]), attempts[n].e, times[n]);
    }
  }
}
