/** The Ada port of the posture machine, and its agreement with the Go machine. */
module PostureAda {
  import Posture

  datatype PostureState = Normal | Siege | Mercy | Incident | Game | Exited

  datatype Capability =
    | CapPostureSet | CapPostureAdmin | CapSessionOpen | CapNet | CapExec | CapDomainStart | CapDomainStop
    | CapSshConnect | CapSshManageHosts | CapSshManageKeys | CapPolicyWrite | CapAuditRead | CapExport

  datatype CapabilityVerdict = PassThrough | ForceOff | ForceOn | PinnedOnly | GameDomainOnly

  /** The transition table, row by row. */
  predicate Allowed(from: PostureState, to: PostureState) {
    match from
    case Normal => !to.Normal?
    case Siege => to.Normal? || to.Game? || to.Exited?
    case Mercy => to.Normal? || to.Siege? || to.Game? || to.Exited?
    case Incident => to.Normal? || to.Exited?
    case Game => to.Normal? || to.Exited?
    case Exited => false
  }

  function Overrides(state: PostureState, cap: Capability): CapabilityVerdict {
    match (state, cap)
    case (Siege, CapNet) => ForceOff
    case (Siege, CapDomainStart) => PinnedOnly
    case (Mercy, CapExec) => PinnedOnly
    case (Mercy, CapDomainStart) => PinnedOnly
    case (Incident, CapNet) => ForceOff
    case (Incident, CapExec) => ForceOff
    case (Incident, CapDomainStart) => ForceOff
    case (Incident, CapExport) => ForceOn
    case (Game, CapNet) => ForceOff
    case (Game, CapDomainStart) => GameDomainOnly
    case (Game, CapExec) => GameDomainOnly
    case _ => PassThrough
  }

  class GuardedState {
    var state: PostureState

    constructor ()
      ensures state == Normal
    {
      state := Normal;
    }

    /** Set */
    method Set(stateTo: PostureState) returns (oldState: PostureState, success: bool)
      modifies this
      ensures oldState == old(state) && state == Next(old(state), stateTo)
      ensures success <==> Posture.Permitted(GoState(old(state)), GoState(stateTo))
      ensures GoState(state) == Posture.Next(GoState(old(state)), GoState(stateTo))
    {
      Agrees(state, stateTo);
      var target := stateTo;
      oldState := state;
      if state == Exited {
        success := false;
        return;
      }
      if state == Game && stateTo == Game {
        target := Normal;
      }
      if Allowed(state, target) {
        state := target;
        success := true;
      } else {
        success := false;
      }
    }
  }

  /* ---- Correspondence ---- */

  function GoState(s: PostureState): (g: string)
    ensures g in Posture.STATES
  {
    match s
    case Normal => Posture.NORMAL
    case Siege => Posture.SIEGE
    case Mercy => Posture.MERCY
    case Incident => Posture.INCIDENT
    case Game => Posture.GAME
    case Exited => Posture.EXITED
  }

  function GoCap(c: Capability): string {
    match c
    case CapPostureSet => "cap.posture.set"
    case CapPostureAdmin => "cap.posture.admin"
    case CapSessionOpen => "cap.session.open"
    case CapNet => "cap.net"
    case CapExec => "cap.exec"
    case CapDomainStart => "cap.domain.start"
    case CapDomainStop => "cap.domain.stop"
    case CapSshConnect => "cap.ssh.connect"
    case CapSshManageHosts => "cap.ssh.manage_hosts"
    case CapSshManageKeys => "cap.ssh.manage_keys"
    case CapPolicyWrite => "cap.policy.write"
    case CapAuditRead => "cap.audit.read"
    case CapExport => "cap.export"
  }

  function GoVerdict(v: CapabilityVerdict): Posture.Verdict {
    match v
    case PassThrough => Posture.PassThrough
    case ForceOff => Posture.ForceOff
    case ForceOn => Posture.ForceOn
    case PinnedOnly => Posture.PinnedOnly
    case GameDomainOnly => Posture.GameDomainOnly
  }

  /** The state an Ada request leads to, before the table is consulted. */
  function Target(from: PostureState, to: PostureState): PostureState {
    if from == Game && to == Game then Normal else to
  }

  function Next(from: PostureState, to: PostureState): PostureState {
    if from != Exited && Allowed(from, Target(from, to)) then Target(from, to) else from
  }

  lemma Agrees(from: PostureState, to: PostureState)
    ensures Posture.Permitted(GoState(from), GoState(to)) <==> from != Exited && Allowed(from, Target(from, to))
    ensures Posture.Next(GoState(from), GoState(to)) == GoState(Next(from, to))
  {
  }

  /** One answer of either machine: the state before, whether it moved, the state after. */
  datatype Answer = Answer(oldState: string, success: bool, state: string)

  function GoAnswers(from: string, requests: seq<string>): seq<Answer>
    decreases |requests|
  {
    if requests == [] then []
    else
      var next := Posture.Next(from, requests[0]);
      [Answer(from, Posture.Permitted(from, requests[0]), next)] + GoAnswers(next, requests[1..])
  }

  function AdaAnswers(from: PostureState, requests: seq<PostureState>): seq<Answer>
    decreases |requests|
  {
    if requests == [] then []
    else
      var next := Next(from, requests[0]);
      [Answer(GoState(from), from != Exited && Allowed(from, Target(from, requests[0])), GoState(next))]
      + AdaAnswers(next, requests[1..])
  }

  /** The Ada values among the requested strings; Ada has no value for the others. */
  function Known(requests: seq<string>): seq<PostureState> {
    if requests == [] then []
    else if requests[0] in Posture.STATES then [FromGo(requests[0])] + Known(requests[1..])
    else Known(requests[1..])
  }

  function FromGo(g: string): (s: PostureState)
    requires g in Posture.STATES
    ensures GoState(s) == g
  {
    if g == Posture.NORMAL then Normal
    else if g == Posture.SIEGE then Siege
    else if g == Posture.MERCY then Mercy
    else if g == Posture.INCIDENT then Incident
    else if g == Posture.GAME then Game
    else Exited
  }

  /** The answers to strings that name a state. */
  function KnownAnswers(requests: seq<string>, answers: seq<Answer>): seq<Answer>
    requires |requests| == |answers|
  {
    if requests == [] then []
    else if requests[0] in Posture.STATES then [answers[0]] + KnownAnswers(requests[1..], answers[1..])
    else KnownAnswers(requests[1..], answers[1..])
  }

  lemma {:induction false} AnswerCount(from: string, requests: seq<string>)
    ensures |GoAnswers(from, requests)| == |requests|
    decreases |requests|
  {
    if requests != [] {
      AnswerCount(Posture.Next(from, requests[0]), requests[1..]);
    }
  }

  /** Whatever strings are requested, Go refuses those outside the enumeration without
      moving, and gives the others the answers that the Ada port gives. */
  lemma {:induction false} PortsAgree(from: PostureState, requests: seq<string>)
    ensures
      var go := GoAnswers(GoState(from), requests);
      && |go| == |requests|
      && KnownAnswers(requests, go) == AdaAnswers(from, Known(requests))
      && (forall i :: 0 <= i < |go| && requests[i] !in Posture.STATES ==>
            !go[i].success && go[i].state == go[i].oldState)
    decreases |requests|
  {
    AnswerCount(GoState(from), requests);
    if requests != [] {
      var to := requests[0];
      var go := GoAnswers(GoState(from), requests);
      var next := Posture.Next(GoState(from), to);
      assert go[1..] == GoAnswers(next, requests[1..]);
      Posture.NextMoves(GoState(from), to);
      if to in Posture.STATES {
        Agrees(from, FromGo(to));
        PortsAgree(Next(from, FromGo(to)), requests[1..]);
        assert Known(requests)[1..] == Known(requests[1..]);
      } else {
        PortsAgree(from, requests[1..]);
      }
      forall i | 0 <= i < |go| && requests[i] !in Posture.STATES
        ensures !go[i].success && go[i].state == go[i].oldState
      {
        assert i > 0 ==> go[i] == go[1..][i - 1] && requests[i] == requests[1..][i - 1];
      }
    }
  }

  /** Both ports treat every shared capability alike in every state. */
  lemma VerdictsAgree(s: PostureState, c: Capability)
    ensures Posture.CapabilityVerdict(GoState(s), GoCap(c)) == GoVerdict(Overrides(s, c))
  {
  }
}
