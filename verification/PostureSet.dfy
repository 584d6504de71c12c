/** The `posture set` command: load the posture, open the log, move, record. The log
    is the move history: replaying it gives the stored posture. */
module PostureSet {
  import opened Audit
  import L = Logger
  import Posture
  import Policy

  datatype Caller = Caller(actorId: string, sessionId: string, deviceId: string, role: string)

  const VERB := "posture.set"

  /** One invocation, or any other event that some command appends. `why` is the text
      of the transition's error. */
  datatype Command =
    | Set(who: Caller, target: string, outcome: Posture.Persist, why: string, now: int, fault: L.Fault)
    | Other(e: Event, now: int, fault: L.Fault)

  /** The posture file and the log file. */
  datatype Store = Store(disk: Posture.Disk, log: seq<Event>)

  function MoveEvent(who: Caller, from: string, target: string): Event {
    L.AllowEvent(who.actorId, who.sessionId, who.deviceId, VERB, "posture:" + target, SUCCESS,
                 map["from" := from, "to" := target])
  }

  function RefusalEvent(who: Caller, target: string, why: string): Event {
    L.DenyEvent(who.actorId, who.sessionId, who.deviceId, VERB, "posture:" + target,
                "transition.invalid:" + why, map[])
  }

  /** A command that opens the log, appends one event and exits. */
  function Recorded(sha: Sha, log: seq<Event>, e: Event, now: int, fault: L.Fault): seq<Event> {
    L.Append(sha, log, L.TipOf(log), e, now, fault).0
  }

  function Step(sha: Sha, s: Store, c: Command): Store {
    match c
    case Other(e, now, fault) => s.(log := Recorded(sha, s.log, e, now, fault))
    case Set(who, target, outcome, why, now, fault) =>
      var loaded := Posture.Load(s.disk);
      if loaded.Failed? || who.role != Policy.ADMIN then s
      else
        var from := loaded.posture;
        if Posture.Permitted(from, target) && outcome.Written? then
          Store(Posture.Holds(Posture.Next(from, target)),
                Recorded(sha, s.log, MoveEvent(who, from, target), now, fault))
        else
          Store(if Posture.Permitted(from, target) then Posture.AfterWrite(s.disk, Posture.Next(from, target), outcome)
                else s.disk,
                Recorded(sha, s.log, RefusalEvent(who, target, why), now, fault))
  }

  /** What one command does, word by word: for an admin with a loadable posture one event,
      an allow with the move if it was permitted and written, else a deny with the reason. */
  lemma StepInWords(sha: Sha, s: Store, who: Caller, target: string, outcome: Posture.Persist, why: string,
                    now: int, fault: L.Fault)
    ensures
      var s' := Step(sha, s, Set(who, target, outcome, why, now, fault));
      if s.disk.Unreadable? || who.role != "admin" then s' == s
      else
        var from := Posture.Load(s.disk).posture;
        var moves := Posture.Permitted(from, target) && outcome.Written?;
        && (moves ==> s'.disk == Posture.Holds(if from == target then "NORMAL" else target))
        && (!Posture.Permitted(from, target) ==> s'.disk == s.disk)
        && if fault.WriteFails? then s'.log == s.log
           else
             && |s'.log| == |s.log| + 1 && s.log <= s'.log
             && var e := s'.log[|s.log|];
                && e.verb == "posture.set" && e.objectRef == "posture:" + target
                && e.actorId == who.actorId && e.sessionId == who.sessionId && e.deviceId == who.deviceId
                && if moves then
                     && e.decision == "allow" && e.reasonCode == "" && e.result == "success"
                     && e.meta == map["from" := from, "to" := target]
                   else
                     && e.decision == "deny" && e.reasonCode == "transition.invalid:" + why && e.result == "failure"
                     && e.meta == map[]
  {
    if !s.disk.Unreadable? {
      Posture.PermittedByState(Posture.Load(s.disk).posture, target);
    }
  }

  /** The command as it runs. */
  method SetPosture(sha: Sha, disk: Posture.Disk, file: L.LogFile, who: Caller, target: string,
                    outcome: Posture.Persist, why: string, now: int, fault: L.Fault)
    returns (disk': Posture.Disk, moved: bool)
    modifies file
    ensures Store(disk', file.events)
         == Step(sha, Store(disk, old(file.events)), Set(who, target, outcome, why, now, fault))
    ensures disk.Unreadable? || who.role != "admin" ==> !moved && disk' == disk && file.events == old(file.events)
    ensures !disk.Unreadable? && who.role == "admin" ==>
      var from := Posture.Load(disk).posture;
      && (moved <==> Posture.Permitted(from, target) && outcome.Written?)
      && (moved ==> disk' == Posture.Holds(if from == target then "NORMAL" else target))
      && (!Posture.Permitted(from, target) ==> disk' == disk)
      && if fault.WriteFails? then file.events == old(file.events)
         else
           && |file.events| == |old(file.events)| + 1 && old(file.events) <= file.events
           && var e := file.events[|old(file.events)|];
              && e.verb == "posture.set" && e.objectRef == "posture:" + target
              && e.actorId == who.actorId && e.sessionId == who.sessionId && e.deviceId == who.deviceId
              && if moved then
                   && e.decision == "allow" && e.reasonCode == "" && e.result == "success"
                   && e.meta == map["from" := from, "to" := target]
                 else
                   && e.decision == "deny" && e.reasonCode == "transition.invalid:" + why && e.result == "failure"
                   && e.meta == map[]
  {
    StepInWords(sha, Store(disk, file.events), who, target, outcome, why, now, fault);
    disk', moved := disk, false;
    var machine := Posture.Machine.New(disk);
    if machine == null {
      return;
    }
    if who.role != Policy.ADMIN {
      return;
    }
    var log := new L.Logger(file);
    var from, err := machine.Transition(target, outcome);
    disk' := machine.disk;
    if err != Posture.NoError {
      var _ := log.Deny(sha, who.actorId, who.sessionId, who.deviceId, VERB, "posture:" + target,
                        "transition.invalid:" + why, map[], now, fault);
      return;
    }
    moved := true;
    var _ := log.Allow(sha, who.actorId, who.sessionId, who.deviceId, VERB, "posture:" + target, SUCCESS,
                       map["from" := from, "to" := target], now, fault);
  }

  /* ---- The log as move history ---- */

  /** An allowed posture.set event that records a move. */
  predicate IsMove(e: Event) {
    e.verb == VERB && e.decision == ALLOW && "from" in e.meta && "to" in e.meta
  }

  /** Folds the recorded targets, with the GAME toggle, from NORMAL. */
  function Replay(log: seq<Event>): string {
    if log == [] then Posture.NORMAL
    else
      var before := Replay(log[..|log| - 1]);
      var e := log[|log| - 1];
      if IsMove(e) then Posture.Next(before, e.meta["to"]) else before
  }

  /** Each recorded "from" is the replayed state just before, and each move was permitted. */
  ghost predicate Truthful(log: seq<Event>) {
    forall i :: 0 <= i < |log| && IsMove(log[i]) ==>
      var before := Replay(log[..i]);
      log[i].meta["from"] == before && Posture.Permitted(before, log[i].meta["to"])
  }

  /** The log verifies, tells the truth, and replays to the stored posture, unless a
      failed write spoilt the posture file. */
  ghost predicate InSync(sha: Sha, s: Store) {
    && L.WellKept(sha, s.log)
    && Truthful(s.log)
    && (s.disk == Posture.Unreadable || Posture.Load(s.disk) == Posture.Ready(Replay(s.log)))
  }

  /** The command moves the stored posture without an allow event for it in the log: the
      event's write fails, or the posture's write is reported as failed though the whole
      file was written, so that a refusal is recorded. */
  predicate LosesMove(s: Store, c: Command) {
    && c.Set? && c.who.role == Policy.ADMIN
    && Posture.Load(s.disk).Ready? && Posture.Permitted(Posture.Load(s.disk).posture, c.target)
    && (c.outcome.FailedAfterWriting? || (c.outcome.Written? && c.fault.WriteFails?))
  }

  /** An event of some other command is not mistaken for a move. */
  predicate Honest(c: Command) { c.Other? ==> !IsMove(c.e) }

  lemma ReplayOneMore(log: seq<Event>, e: Event)
    ensures Replay(log + [e]) == if IsMove(e) then Posture.Next(Replay(log), e.meta["to"]) else Replay(log)
    ensures
      && Truthful(log)
      && (IsMove(e) ==> e.meta["from"] == Replay(log) && Posture.Permitted(Replay(log), e.meta["to"]))
      ==> Truthful(log + [e])
  {
    var all := log + [e];
    assert all[..|log|] == log;
    forall i | Truthful(log) && 0 <= i < |log| && IsMove(all[i])
      ensures all[i].meta["from"] == Replay(all[..i]) && Posture.Permitted(Replay(all[..i]), all[i].meta["to"])
    {
      assert all[i] == log[i] && all[..i] == log[..i];
    }
  }

  /** What any append does to the history. */
  lemma RecordedHistory(sha: Sha, log: seq<Event>, e: Event, now: int, fault: L.Fault)
    requires L.WellKept(sha, log) && Truthful(log)
    requires IsMove(e) ==> e.meta["from"] == Replay(log) && Posture.Permitted(Replay(log), e.meta["to"])
    ensures
      var log' := Recorded(sha, log, e, now, fault);
      && L.WellKept(sha, log') && Truthful(log')
      && Replay(log') == if fault.WriteFails? || !IsMove(e) then Replay(log)
                         else Posture.Next(Replay(log), e.meta["to"])
  {
    L.StampExtendsIf(sha, log, L.TipOf(log), e, now);
    ReplayOneMore(log, L.Stamp(sha, L.TipOf(log), e, now));
  }

  lemma MoveKeepsHistory(sha: Sha, log: seq<Event>, who: Caller, target: string, now: int, fault: L.Fault)
    requires L.WellKept(sha, log) && Truthful(log) && Posture.Permitted(Replay(log), target)
    ensures
      var log' := Recorded(sha, log, MoveEvent(who, Replay(log), target), now, fault);
      && L.WellKept(sha, log') && Truthful(log')
      && Replay(log') == if fault.WriteFails? then Replay(log) else Posture.Next(Replay(log), target)
  {
    var e := MoveEvent(who, Replay(log), target);
    assert e.meta["to"] == target && e.meta["from"] == Replay(log);
    RecordedHistory(sha, log, e, now, fault);
  }

  lemma RefusalKeepsHistory(sha: Sha, log: seq<Event>, who: Caller, target: string, why: string, now: int,
                            fault: L.Fault)
    requires L.WellKept(sha, log) && Truthful(log)
    ensures
      var log' := Recorded(sha, log, RefusalEvent(who, target, why), now, fault);
      L.WellKept(sha, log') && Truthful(log') && Replay(log') == Replay(log)
  {
    assert ALLOW != DENY;
    RecordedHistory(sha, log, RefusalEvent(who, target, why), now, fault);
  }

  /** An admin's request that is permitted in a posture that loads. */
  predicate Moves(s: Store, c: Command) {
    && c.Set? && c.who.role == Policy.ADMIN
    && Posture.Load(s.disk).Ready? && Posture.Permitted(Posture.Load(s.disk).posture, c.target)
  }

  lemma MovedInSync(sha: Sha, s: Store, c: Command)
    requires InSync(sha, s) && Moves(s, c) && c.outcome.Written?
    ensures InSync(sha, Step(sha, s, c)) <==> !c.fault.WriteFails?
  {
    Posture.NextMoves(Posture.Load(s.disk).posture, c.target);
    MoveKeepsHistory(sha, s.log, c.who, c.target, c.now, c.fault);
  }

  lemma NotMovedInSync(sha: Sha, s: Store, c: Command)
    requires InSync(sha, s) && c.Set? && !(Moves(s, c) && c.outcome.Written?)
    ensures InSync(sha, Step(sha, s, c)) <==> !(Moves(s, c) && c.outcome.FailedAfterWriting?)
  {
    if Moves(s, c) {
      Posture.NextMoves(Posture.Load(s.disk).posture, c.target);
    }
    RefusalKeepsHistory(sha, s.log, c.who, c.target, c.why, c.now, c.fault);
  }

  /** One command keeps log and posture in step exactly when it does not move the
      posture unrecorded. */
  lemma InSyncUnlessMoveLost(sha: Sha, s: Store, c: Command)
    requires InSync(sha, s) && Honest(c)
    ensures InSync(sha, Step(sha, s, c)) <==> !LosesMove(s, c)
  {
    if c.Other? {
      RecordedHistory(sha, s.log, c.e, c.now, c.fault);
    } else if Moves(s, c) && c.outcome.Written? {
      MovedInSync(sha, s, c);
    } else {
      NotMovedInSync(sha, s, c);
    }
  }

  function Run(sha: Sha, commands: seq<Command>): Store {
    if commands == [] then Store(Posture.Absent, [])
    else Step(sha, Run(sha, commands[..|commands| - 1]), commands[|commands| - 1])
  }

  ghost predicate AllHonest(commands: seq<Command>) {
    forall k :: 0 <= k < |commands| ==> Honest(commands[k])
  }

  ghost predicate InSyncAt(sha: Sha, commands: seq<Command>, k: nat)
    requires k <= |commands|
  {
    InSync(sha, Run(sha, commands[..k]))
  }

  predicate LosesMoveAt(sha: Sha, commands: seq<Command>, k: nat)
    requires k < |commands|
  {
    LosesMove(Run(sha, commands[..k]), commands[k])
  }

  lemma InSyncNext(sha: Sha, commands: seq<Command>, k: nat)
    requires k < |commands| && AllHonest(commands) && InSyncAt(sha, commands, k)
    ensures InSyncAt(sha, commands, k + 1) <==> !LosesMoveAt(sha, commands, k)
  {
    assert commands[..k + 1][..k] == commands[..k];
    InSyncUnlessMoveLost(sha, Run(sha, commands[..k]), commands[k]);
  }

  lemma {:induction false} InSyncUpTo(sha: Sha, commands: seq<Command>, n: nat)
    requires n <= |commands| && AllHonest(commands)
    requires forall k :: 0 <= k < n ==> !LosesMoveAt(sha, commands, k)
    ensures InSyncAt(sha, commands, n)
    decreases n
  {
    if n != 0 {
      InSyncUpTo(sha, commands, n - 1);
      InSyncNext(sha, commands, n - 1);
    }
  }

  /** Event sourcing: on every run of commands from a fresh state, the log verifies, every
      recorded "from" is the replayed state before it, and the replay of the log is the
      stored posture unless that file is spoilt, at every point of the run, if and only if
      no command moves the stored posture without an allow event. */
  lemma ReplayGivesStoredPosture(sha: Sha, commands: seq<Command>)
    requires AllHonest(commands)
    ensures (forall k :: 0 <= k <= |commands| ==> InSyncAt(sha, commands, k))
       <==> forall k :: 0 <= k < |commands| ==> !LosesMoveAt(sha, commands, k)
  {
    if forall k :: 0 <= k < |commands| ==> !LosesMoveAt(sha, commands, k) {
      forall k | 0 <= k <= |commands|
        ensures InSyncAt(sha, commands, k)
      {
        InSyncUpTo(sha, commands, k);
      }
    } else {
      var k :| 0 <= k < |commands| && LosesMoveAt(sha, commands, k);
      if InSyncAt(sha, commands, k) {
        InSyncNext(sha, commands, k);
      }
    }
  }

  /* ---- The printed history ---- */

  datatype Row = Row(seqNo: int, ts: int, actor: string, from: string, to: string)

  function MetaOr(e: Event, key: string): string { if key in e.meta then e.meta[key] else "" }

  function RowOf(e: Event): Row { Row(e.seqNo, e.ts, e.actorId, MetaOr(e, "from"), MetaOr(e, "to")) }

  /** A row per posture.set event, denials included. */
  function Rows(log: seq<Event>): seq<Row> {
    if log == [] then []
    else
      var n := |log| - 1;
      Rows(log[..n]) + if log[n].verb == VERB then [RowOf(log[n])] else []
  }

  /** One more event adds a row at the end if it is a posture.set event: its number, time and
      actor, and the two states where its metadata has them. */
  lemma RowsInWords(log: seq<Event>, e: Event)
    ensures Rows([]) == []
    ensures Rows(log + [e]) == Rows(log) +
      if e.verb != "posture.set" then []
      else [Row(e.seqNo, e.ts, e.actorId, if "from" in e.meta then e.meta["from"] else "",
                if "to" in e.meta then e.meta["to"] else "")]
  {
    assert (log + [e])[..|log|] == log;
  }

  /** runAuditHistory: the last `n` rows, or all of them if there are fewer. */
  method History(log: seq<Event>, n: nat) returns (rows: seq<Row>)
    ensures |rows| == if |Rows(log)| < n then |Rows(log)| else n
    ensures rows == Rows(log)[|Rows(log)| - |rows|..]
  {
    rows := [];
    for i := 0 to |log|
      invariant rows == Rows(log[..i])
    {
      assert log[..i + 1][..i] == log[..i];
      if log[i].verb == VERB {
        rows := rows + [RowOf(log[i])];
      }
    }
    assert log[..|log|] == log;
    if |rows| > n {
      rows := rows[|rows| - n..];
    }
  }

  lemma {:induction false} ReplaySkips(log: seq<Event>, i: nat, j: nat)
    requires i <= j <= |log| && forall k :: i <= k < j ==> !IsMove(log[k])
    ensures Replay(log[..j]) == Replay(log[..i])
    decreases j
  {
    if i < j {
      assert log[..j][..j - 1] == log[..j - 1];
      ReplaySkips(log, i, j - 1);
    }
  }

  /** The rows of two successive moves join up, "to" with "from", except exactly after
      leaving GAME by asking for GAME: that row says GAME though the state is NORMAL. */
  lemma HistoryJoinsUp(log: seq<Event>, i: nat, j: nat)
    requires Truthful(log) && i < j < |log| && IsMove(log[i]) && IsMove(log[j])
    requires forall k :: i < k < j ==> !IsMove(log[k])
    ensures RowOf(log[j]).from == RowOf(log[i]).to
      <==> !(RowOf(log[i]).from == Posture.GAME && RowOf(log[i]).to == Posture.GAME)
    ensures RowOf(log[j]).from == Posture.Next(RowOf(log[i]).from, RowOf(log[i]).to)
  {
    ReplaySkips(log, i + 1, j);
    assert log[..i + 1][..i] == log[..i];
    Posture.NextMoves(Replay(log[..i]), log[i].meta["to"]);
  }
}
