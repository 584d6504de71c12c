/** The posture state machine: permitted moves, capability overrides, and the
    posture file that carries the state over restarts. */
module Posture {

  const NORMAL := "NORMAL"
  const SIEGE := "SIEGE"
  const MERCY := "MERCY"
  const INCIDENT := "INCIDENT"
  const GAME := "GAME"
  const EXITED := "EXITED"

  const STATES: set<string> := {NORMAL, SIEGE, MERCY, INCIDENT, GAME, EXITED}

  datatype Verdict = PassThrough | ForceOff | ForceOn | PinnedOnly | GameDomainOnly

  const OVERRIDES: map<string, map<string, Verdict>> := map[
    NORMAL := map[],
    SIEGE := map["cap.net" := ForceOff, "cap.domain.start" := PinnedOnly],
    MERCY := map["cap.exec" := PinnedOnly, "cap.domain.start" := PinnedOnly],
    INCIDENT := map["cap.net" := ForceOff, "cap.exec" := ForceOff, "cap.domain.start" := ForceOff,
                    "cap.export" := ForceOn],
    GAME := map["cap.net" := ForceOff, "cap.domain.start" := GameDomainOnly, "cap.exec" := GameDomainOnly],
    EXITED := map[]]

  const TRANSITIONS: map<string, set<string>> := map[
    NORMAL := {SIEGE, MERCY, GAME, INCIDENT, EXITED},
    SIEGE := {NORMAL, GAME, EXITED},
    MERCY := {NORMAL, SIEGE, GAME, EXITED},
    INCIDENT := {NORMAL, EXITED},
    GAME := {NORMAL, EXITED}]

  function CapabilityVerdict(posture: string, cap: string): Verdict {
    if posture !in OVERRIDES then PassThrough
    else if cap !in OVERRIDES[posture] then PassThrough
    else OVERRIDES[posture][cap]
  }

  /** The overrides, verdict by verdict: which capability is treated so in which posture.
      Everywhere else the role decides. */
  lemma OverridesByVerdict(posture: string, cap: string)
    ensures CapabilityVerdict(posture, cap).ForceOff?
       <==> || (cap == "cap.net" && posture in {SIEGE, INCIDENT, GAME})
            || (cap in {"cap.exec", "cap.domain.start"} && posture == INCIDENT)
    ensures CapabilityVerdict(posture, cap).PinnedOnly?
       <==> || (cap == "cap.domain.start" && posture in {SIEGE, MERCY})
            || (cap == "cap.exec" && posture == MERCY)
    ensures CapabilityVerdict(posture, cap).GameDomainOnly?
       <==> cap in {"cap.exec", "cap.domain.start"} && posture == GAME
    ensures CapabilityVerdict(posture, cap).ForceOn? <==> cap == "cap.export" && posture == INCIDENT
  {
  }

  /** GAME is a toggle: asking for it in GAME asks for NORMAL. */
  function Target(from: string, to: string): string {
    if from == GAME && to == GAME then NORMAL else to
  }

  predicate Permitted(from: string, to: string) {
    from != EXITED && from in TRANSITIONS && Target(from, to) in TRANSITIONS[from]
  }

  /** The state after a request that is persisted, whether or not it is permitted. */
  function Next(from: string, to: string): string {
    if Permitted(from, to) then Target(from, to) else from
  }

  /** Permitted requests go from one of the six states to a different one. */
  lemma NextMoves(from: string, to: string)
    ensures Permitted(from, to) ==> from in STATES && to in STATES && Next(from, to) in STATES
    ensures Next(from, to) != from <==> Permitted(from, to)
  {
  }

  /** The permitted requests, state by state. Asking for GAME in GAME is the way back. */
  lemma PermittedByState(from: string, to: string)
    ensures Permitted(from, to)
       <==> || (from == "NORMAL" && to in {"SIEGE", "MERCY", "GAME", "INCIDENT", "EXITED"})
            || (from == "SIEGE" && to in {"NORMAL", "GAME", "EXITED"})
            || (from == "MERCY" && to in {"NORMAL", "SIEGE", "GAME", "EXITED"})
            || (from == "INCIDENT" && to in {"NORMAL", "EXITED"})
            || (from == "GAME" && to in {"NORMAL", "GAME", "EXITED"})
    ensures Permitted(from, to) ==> Next(from, to) == if from == to then "NORMAL" else to
  {
  }

  /* ---- The posture file ---- */

  /** What is at the posture path. An interrupted write can leave a file that does
      not parse. */
  datatype Disk = Absent | Unreadable | Holds(posture: string)

  /** How writing the file goes. A failed write can leave the old file, a spoilt one, or
      the whole new one. */
  datatype Persist = Written | FailedKeepingFile | FailedSpoilingFile | FailedAfterWriting

  function AfterWrite(disk: Disk, posture: string, outcome: Persist): Disk {
    match outcome
    case Written => Holds(posture)
    case FailedKeepingFile => disk
    case FailedSpoilingFile => Unreadable
    case FailedAfterWriting => Holds(posture)
  }

  datatype Loaded = Ready(posture: string) | Failed

  /** The state that New starts from: NORMAL without a file or with an unknown state. */
  function Load(disk: Disk): Loaded {
    match disk
    case Absent => Ready(NORMAL)
    case Unreadable => Failed
    case Holds(p) => Ready(if p in STATES then p else NORMAL)
  }

  datatype TransitionError = NoError | SystemExited | InvalidTransition(from: string, to: string) | PersistFailed

  class Machine {
    var current: string
    var disk: Disk

    constructor (disk: Disk, posture: string)
      ensures this.disk == disk && current == posture
    {
      this.disk, current := disk, posture;
    }

    /** New: no machine when the posture file does not parse. */
    static method New(disk: Disk) returns (m: Machine?)
      ensures m == null <==> disk == Unreadable
      ensures m != null ==> fresh(m) && m.disk == disk && Load(disk) == Ready(m.current) && m.current in STATES
      ensures m != null ==>
        m.current == if disk.Holds? && disk.posture in {"NORMAL", "SIEGE", "MERCY", "INCIDENT", "GAME", "EXITED"}
                     then disk.posture else "NORMAL"
    {
      var current := NORMAL;
      match disk {
        case Absent =>
        case Unreadable =>
          return null;
        case Holds(posture) =>
          if posture in STATES {
            current := posture;
          }
      }
      m := new Machine(disk, current);
    }

    /** Transition: sets the state, writes the file, and puts the state back if the
        write fails. */
    method Transition(to: string, outcome: Persist) returns (oldState: string, err: TransitionError)
      modifies this
      ensures oldState == old(current)
      ensures err == NoError <==> Permitted(old(current), to) && outcome == Written
      ensures current == if outcome == Written then Next(old(current), to) else old(current)
      ensures disk == if Permitted(old(current), to) then AfterWrite(old(disk), Next(old(current), to), outcome)
                      else old(disk)
      ensures err == SystemExited <==> old(current) == "EXITED"
      ensures err.InvalidTransition? <==> !Permitted(old(current), to) && old(current) != "EXITED"
      ensures err.InvalidTransition? ==>
        err == InvalidTransition(old(current), if old(current) == to == "GAME" then "NORMAL" else to)
      ensures err == PersistFailed ==>
        match outcome
        case FailedKeepingFile => disk == old(disk)
        case FailedSpoilingFile => disk == Unreadable
        case FailedAfterWriting => disk == Holds(Next(old(current), to))
        case Written => false
      ensures err == NoError ==> disk == Holds(current)
    {
      oldState := current;
      var target := to;
      if current == EXITED {
        return oldState, SystemExited;
      }
      if current == GAME && target == GAME {
        target := NORMAL;
      }
      if !(current in TRANSITIONS && target in TRANSITIONS[current]) {
        return oldState, InvalidTransition(current, target);
      }
      current := target;
      disk := AfterWrite(disk, current, outcome);
      if !outcome.Written? {
        current := oldState;
        return oldState, PersistFailed;
      }
      return oldState, NoError;
    }

    /** CapabilityVerdict */
    method Verdict(cap: string) returns (v: Verdict)
      ensures v == CapabilityVerdict(current, cap)
      ensures v.ForceOff? <==> || (cap == "cap.net" && current in {SIEGE, INCIDENT, GAME})
                               || (cap in {"cap.exec", "cap.domain.start"} && current == INCIDENT)
      ensures v.ForceOn? <==> cap == "cap.export" && current == INCIDENT
      ensures v.PinnedOnly? <==> || (cap == "cap.domain.start" && current in {SIEGE, MERCY})
                                 || (cap == "cap.exec" && current == MERCY)
      ensures v.GameDomainOnly? <==> cap in {"cap.exec", "cap.domain.start"} && current == GAME
    {
      OverridesByVerdict(current, cap);
      if current !in OVERRIDES {
        return PassThrough;
      }
      var overrides := OVERRIDES[current];
      if cap !in overrides {
        return PassThrough;
      }
      return overrides[cap];
    }
  }

  /* ---- Runs of transitions and restarts ---- */

  datatype Act = Request(to: string, outcome: Persist) | Restart

  /** A running machine and its file; no machine runs once a restart found a file
      that does not parse. */
  datatype World = World(running: bool, current: string, disk: Disk)

  function Step(w: World, act: Act): World {
    match act
    case Restart =>
      var l := Load(w.disk);
      if l.Failed? then w.(running := false) else World(true, l.posture, w.disk)
    case Request(to, outcome) =>
      if !w.running || !Permitted(w.current, to) then w
      else
        var next := Next(w.current, to);
        World(true, if outcome.Written? then next else w.current, AfterWrite(w.disk, next, outcome))
  }

  /** Every state along a run, first to last. */
  function Run(w: World, acts: seq<Act>): (ws: seq<World>)
    ensures |ws| == |acts| + 1 && ws[0] == w
    decreases |acts|
  {
    if acts == [] then [w] else [w] + Run(Step(w, acts[0]), acts[1..])
  }

  lemma {:induction false} RunStep(w: World, acts: seq<Act>, i: nat)
    requires i < |acts|
    ensures Run(w, acts)[i + 1] == Step(Run(w, acts)[i], acts[i])
    decreases |acts|
  {
    if 0 < i {
      RunStep(Step(w, acts[0]), acts[1..], i - 1);
    }
  }

  /** `next` is `from` or one permitted move away. */
  predicate Within1(from: string, next: string) {
    next == from || Permitted(from, next)
  }

  /** What the file holds is the posture in memory or one permitted move ahead of it. */
  predicate FileIsClose(w: World) {
    w.current in STATES && (w.disk == Unreadable || Within1(w.current, Load(w.disk).posture))
  }

  lemma StepKeepsClose(w: World, act: Act)
    requires FileIsClose(w)
    ensures FileIsClose(Step(w, act)) && Within1(w.current, Step(w, act).current)
  {
    if act.Request? {
      NextMoves(w.current, act.to);
    }
  }

  /** In every run, with failed writes of any kind and restarts, each step leaves the
      posture or makes one permitted move, and EXITED is never left. */
  lemma {:induction false} RunsMakePermittedMoves(w: World, acts: seq<Act>, i: nat, j: nat)
    requires FileIsClose(w) && i <= j <= |acts|
    ensures
      var ws := Run(w, acts);
      && FileIsClose(ws[j])
      && (i < |acts| ==> Within1(ws[i].current, ws[i + 1].current))
      && (ws[i].current == EXITED ==> ws[j].current == EXITED)
    decreases j
  {
    if 0 < j {
      var ws := Run(w, acts);
      RunsMakePermittedMoves(w, acts, if i < j then i else j - 1, j - 1);
      RunStep(w, acts, j - 1);
      StepKeepsClose(ws[j - 1], acts[j - 1]);
    }
    if i == j < |acts| {
      RunStep(w, acts, i);
      StepKeepsClose(Run(w, acts)[i], acts[i]);
    }
  }

  /** No run goes from SIEGE, MERCY or GAME to INCIDENT without being in NORMAL on
      the way. */
  lemma {:induction false} IncidentOnlyThroughNormal(w: World, acts: seq<Act>, i: nat, j: nat)
    requires FileIsClose(w) && i <= j <= |acts|
    requires Run(w, acts)[i].current in {SIEGE, MERCY, GAME}
    requires Run(w, acts)[j].current == INCIDENT
    ensures exists k :: i < k < j && Run(w, acts)[k].current == NORMAL
    decreases j - i
  {
    var ws := Run(w, acts);
    RunsMakePermittedMoves(w, acts, i, i);
    RunsMakePermittedMoves(w, acts, i + 1, j);
    if ws[i + 1].current == NORMAL {
      assert i < i + 1 < j;
    } else {
      IncidentOnlyThroughNormal(w, acts, i + 1, j);
    }
  }

  /* ---- What a restart finds ---- */

  /** The act is a permitted request whose write, failed or not, changed the file. */
  predicate ChangesFile(w: World, act: Act) {
    act.Request? && w.running && Permitted(w.current, act.to) && !act.outcome.FailedKeepingFile?
  }

  /** Of the first `n` acts, the `i`-th is the last that changed the file. */
  ghost predicate LastChange(w: World, acts: seq<Act>, n: nat, i: nat)
    requires n <= |acts|
  {
    && i < n && ChangesFile(Run(w, acts)[i], acts[i])
    && forall j :: i < j < n ==> !ChangesFile(Run(w, acts)[j], acts[j])
  }

  ghost predicate SpoiltAt(w: World, acts: seq<Act>, n: nat, i: nat)
    requires n <= |acts|
  {
    LastChange(w, acts, n, i) && acts[i].outcome.FailedSpoilingFile?
  }

  ghost predicate AheadAt(w: World, acts: seq<Act>, n: nat, i: nat)
    requires n <= |acts|
  {
    LastChange(w, acts, n, i) && acts[i].outcome.FailedAfterWriting? && forall j :: i < j < n ==> !acts[j].Restart?
  }

  /** The file was left spoilt by the last write that changed it. */
  ghost predicate LeftSpoilt(w: World, acts: seq<Act>, n: nat)
    requires n <= |acts|
  {
    exists i: nat :: SpoiltAt(w, acts, n, i)
  }

  /** The file was left one move ahead of memory, by a last write that failed after
      writing, and there has been no restart since. */
  ghost predicate LeftAhead(w: World, acts: seq<Act>, n: nat)
    requires n <= |acts|
  {
    exists i: nat :: AheadAt(w, acts, n, i)
  }

  lemma NothingLeft(w: World, acts: seq<Act>)
    ensures !LeftSpoilt(w, acts, 0) && !LeftAhead(w, acts, 0)
  {
  }

  lemma LeftByChange(w: World, acts: seq<Act>, n: nat)
    requires n < |acts| && ChangesFile(Run(w, acts)[n], acts[n])
    ensures LeftSpoilt(w, acts, n + 1) <==> acts[n].outcome.FailedSpoilingFile?
    ensures LeftAhead(w, acts, n + 1) <==> acts[n].outcome.FailedAfterWriting?
  {
    var m := n + 1;
    assert LastChange(w, acts, m, n);
    assert SpoiltAt(w, acts, m, n) <==> acts[n].outcome.FailedSpoilingFile?;
    assert AheadAt(w, acts, m, n) <==> acts[n].outcome.FailedAfterWriting?;
    assert forall i: nat :: LastChange(w, acts, m, i) ==> i == n;
  }

  lemma LastChangeByOther(w: World, acts: seq<Act>, n: nat, i: nat)
    requires n < |acts| && !ChangesFile(Run(w, acts)[n], acts[n])
    ensures LastChange(w, acts, n + 1, i) <==> LastChange(w, acts, n, i)
    ensures AheadAt(w, acts, n + 1, i) <==> AheadAt(w, acts, n, i) && !acts[n].Restart?
  {
  }

  lemma LeftByOther(w: World, acts: seq<Act>, n: nat)
    requires n < |acts| && !ChangesFile(Run(w, acts)[n], acts[n])
    ensures LeftSpoilt(w, acts, n + 1) <==> LeftSpoilt(w, acts, n)
    ensures LeftAhead(w, acts, n + 1) <==> LeftAhead(w, acts, n) && !acts[n].Restart?
  {
    var m := n + 1;
    forall i: nat
      ensures SpoiltAt(w, acts, m, i) <==> SpoiltAt(w, acts, n, i)
      ensures AheadAt(w, acts, m, i) <==> AheadAt(w, acts, n, i) && !acts[n].Restart?
    {
      LastChangeByOther(w, acts, n, i);
    }
  }

  /** What one step does to what a reload finds. */
  lemma StepReload(w: World, act: Act)
    ensures
      var w' := Step(w, act);
      if ChangesFile(w, act) then
        && (Load(w'.disk).Failed? <==> act.outcome.FailedSpoilingFile?)
        && (Load(w'.disk) == Ready(w'.current) <==> act.outcome.Written?)
      else
        && w'.disk == w.disk
        && (Load(w'.disk) == Ready(w'.current)
            <==> if act.Restart? then Load(w.disk).Ready? else Load(w.disk) == Ready(w.current))
  {
    if act.Request? {
      NextMoves(w.current, act.to);
    }
  }

  /** How the file stands to memory. */
  datatype Fate = Agrees | IsSpoilt | IsAhead

  function FateAfter(f: Fate, w: World, act: Act): Fate {
    if ChangesFile(w, act) then
      if act.outcome.FailedSpoilingFile? then IsSpoilt else if act.outcome.Written? then Agrees else IsAhead
    else if act.Restart? && f.IsAhead? then Agrees
    else f
  }

  function FateAt(w: World, acts: seq<Act>, n: nat): Fate
    requires n <= |acts|
  {
    if n == 0 then Agrees else FateAfter(FateAt(w, acts, n - 1), Run(w, acts)[n - 1], acts[n - 1])
  }

  lemma {:induction false} FateOfFile(w: World, acts: seq<Act>, n: nat)
    requires Load(w.disk) == Ready(w.current) && n <= |acts|
    ensures
      var wn, f := Run(w, acts)[n], FateAt(w, acts, n);
      && (Load(wn.disk).Failed? <==> f.IsSpoilt?)
      && (Load(wn.disk) == Ready(wn.current) <==> f.Agrees?)
    decreases n
  {
    if 0 < n {
      FateOfFile(w, acts, n - 1);
      RunStep(w, acts, n - 1);
      StepReload(Run(w, acts)[n - 1], acts[n - 1]);
    }
  }

  lemma {:induction false} FateOfWrites(w: World, acts: seq<Act>, n: nat)
    requires n <= |acts|
    ensures FateAt(w, acts, n).IsSpoilt? <==> LeftSpoilt(w, acts, n)
    ensures FateAt(w, acts, n).IsAhead? <==> LeftAhead(w, acts, n)
    decreases n
  {
    if n == 0 {
      NothingLeft(w, acts);
    } else {
      FateOfWrites(w, acts, n - 1);
      if ChangesFile(Run(w, acts)[n - 1], acts[n - 1]) {
        LeftByChange(w, acts, n - 1);
      } else {
        LeftByOther(w, acts, n - 1);
      }
    }
  }

  /** At every point of every run, a restart fails if and only if the last write that
      changed the file spoilt it, and reloading gives the posture in memory if and only
      if the file was left neither spoilt nor ahead. */
  lemma RestartsOverRuns(w: World, acts: seq<Act>, n: nat)
    requires Load(w.disk) == Ready(w.current) && n <= |acts|
    ensures
      var ws := Run(w, acts);
      && (Step(ws[n], Restart).running <==> !LeftSpoilt(w, acts, n))
      && (Load(ws[n].disk) == Ready(ws[n].current) <==> !LeftSpoilt(w, acts, n) && !LeftAhead(w, acts, n))
  {
    FateOfFile(w, acts, n);
    FateOfWrites(w, acts, n);
  }
}
