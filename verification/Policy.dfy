/** Role-based capabilities and the dispatcher's decision. */
module Policy {
  import Posture

  const OPERATOR := "operator"
  const ADMIN := "admin"
  const AUDITOR := "auditor"

  const ROLE_CAPS: map<string, set<string>> := map[
    OPERATOR := {"cap.session.open", "cap.posture.set", "cap.exec", "cap.net", "cap.domain.start",
                 "cap.domain.stop", "cap.ssh.connect"},
    ADMIN := {"cap.session.open", "cap.posture.set", "cap.posture.admin", "cap.exec", "cap.net",
              "cap.domain.start", "cap.domain.stop", "cap.ssh.connect", "cap.ssh.manage_hosts",
              "cap.ssh.manage_keys", "cap.policy.write", "cap.audit.read", "cap.export",
              "cap.fs.grant", "cap.fs.revoke"},
    AUDITOR := {"cap.audit.read", "cap.export"}]

  predicate HasCapability(role: string, cap: string) {
    role in ROLE_CAPS && cap in ROLE_CAPS[role]
  }

  /** Admin holds every capability that any role holds; what only Admin holds is
      exactly posture administration, SSH management, policy writing and file grants. */
  lemma AdminHoldsAll(role: string, cap: string)
    ensures HasCapability(role, cap) ==> HasCapability(ADMIN, cap)
    ensures HasCapability(ADMIN, cap) && !HasCapability(OPERATOR, cap) && !HasCapability(AUDITOR, cap)
      <==> cap in {"cap.posture.admin", "cap.ssh.manage_hosts", "cap.ssh.manage_keys", "cap.policy.write",
                   "cap.fs.grant", "cap.fs.revoke"}
  {
  }

  /** The other two roles share nothing: Auditor reads and exports, Operator operates. Any
      other role holds nothing. */
  lemma RolesByCapability(role: string, cap: string)
    ensures HasCapability("auditor", cap) <==> cap in {"cap.audit.read", "cap.export"}
    ensures HasCapability("operator", cap)
       <==> cap in {"cap.session.open", "cap.posture.set", "cap.exec", "cap.net", "cap.domain.start",
                    "cap.domain.stop", "cap.ssh.connect"}
    ensures !(HasCapability("operator", cap) && HasCapability("auditor", cap))
    ensures HasCapability(role, cap) ==> role in {"operator", "admin", "auditor"}
  {
  }

  const GAME_DOMAIN := "domain:game"

  /** Whether a posture verdict lets a verb on `objectRef` through. Pinned domains are not
      implemented: PinnedOnly denies. */
  predicate LetsThrough(v: Posture.Verdict, objectRef: string) {
    v.PassThrough? || v.ForceOn? || (v.GameDomainOnly? && objectRef == GAME_DOMAIN)
  }

  /** Role, capability, posture and object together permit the verb. */
  predicate Permits(verbs: map<string, string>, posture: string, role: string, verb: string, objectRef: string) {
    && verb in verbs
    && HasCapability(role, verbs[verb])
    && LetsThrough(Posture.CapabilityVerdict(posture, verbs[verb]), objectRef)
  }

  /** What the postures deny, whatever the role: the network in SIEGE, INCIDENT and GAME,
      execution in MERCY and INCIDENT, starting domains in SIEGE, MERCY and INCIDENT, and
      in GAME both of these outside the game domain. Nothing else. */
  lemma PermitsInWords(verbs: map<string, string>, posture: string, role: string, verb: string, objectRef: string)
    ensures Permits(verbs, posture, role, verb, objectRef)
       <==> && verb in verbs && HasCapability(role, verbs[verb])
            && !(verbs[verb] == "cap.net" && posture in {"SIEGE", "INCIDENT", "GAME"})
            && !(verbs[verb] == "cap.exec" && posture in {"MERCY", "INCIDENT"})
            && !(verbs[verb] == "cap.domain.start" && posture in {"SIEGE", "MERCY", "INCIDENT"})
            && !(verbs[verb] in {"cap.exec", "cap.domain.start"} && posture == "GAME" && objectRef != "domain:game")
  {
    if verb in verbs {
      Posture.OverridesByVerdict(posture, verbs[verb]);
    }
  }

  /** What the posture verdict says of a denial, after the posture's name. */
  function DenialSuffix(v: Posture.Verdict): string {
    match v
    case ForceOff => ".denied"
    case PinnedOnly => ".pinned_only"
    case _ => ".game_domain_only"
  }

  function PostureReason(posture: string, v: Posture.Verdict): string {
    "posture." + posture + DenialSuffix(v)
  }

  /** With one verdict, reason codes tell postures apart. */
  lemma PostureReasonInjective(p: string, q: string, v: Posture.Verdict)
    ensures PostureReason(p, v) == PostureReason(q, v) <==> p == q
  {
    var x, y := PostureReason(p, v), PostureReason(q, v);
    assert x[8..|x| - |DenialSuffix(v)|] == p && y[8..|y| - |DenialSuffix(v)|] == q;
  }

  /** EXITED overrides nothing, so a dispatch is decided there as in NORMAL. */
  lemma ExitedDecidesLikeNormal(verbs: map<string, string>, role: string, verb: string, objectRef: string)
    ensures Permits(verbs, Posture.EXITED, role, verb, objectRef)
         == Permits(verbs, Posture.NORMAL, role, verb, objectRef)
    ensures Permits(verbs, Posture.EXITED, role, verb, objectRef) <==> verb in verbs && HasCapability(role, verbs[verb])
  {
  }
}
