/** The hash-chained audit log: events, their canonical hash input, and chain
    verification. SHA-256 is a parameter: any function from text to 64 hex digits. */
module Audit {
  import opened Text

  datatype Event = Event(
    ts: int, seqNo: int,
    actorId: string, sessionId: string, deviceId: string, verb: string, objectRef: string,
    decision: string, reasonCode: string, result: string,
    meta: map<string, string>, prevHash: string, hash: string)

  const ALLOW := "allow"
  const DENY := "deny"
  const SUCCESS := "success"
  const FAILURE := "failure"
  const GENESIS := "sha256:genesis"

  /** What `%x` prints of a 32-byte digest. */
  type Hex64 = s: string | |s| == 64 && forall i :: 0 <= i < |s| ==> s[i] in "0123456789abcdef"
    witness seq(64, _ => '0')
  type Sha = string -> Hex64

  /* ---- The canonical hash input ---- */

  /** The fields that are hashed, in their fixed order. TS, Meta and Hash are not. */
  function Fields(e: Event): (fs: seq<string>)
    ensures |fs| == 10 && OneLine(fs[0])
  {
    [Decimal(e.seqNo), e.actorId, e.sessionId, e.deviceId, e.verb, e.objectRef,
     e.decision, e.reasonCode, e.result, e.prevHash]
  }

  function Canonical(e: Event): string { Join(Fields(e)) }

  function ComputeHash(sha: Sha, e: Event): (h: string)
    ensures |h| == 71 && OneLine(h) && h[..7] == "sha256:" && h[7..] == sha(Canonical(e))
  {
    "sha256:" + sha(Canonical(e))
  }

  /** The layout of the hash input: ten fields, PrevHash last, a newline between each
      two and none at the end. */
  lemma CanonicalLayout(e: Event)
    ensures Canonical(e) ==
      Decimal(e.seqNo) + "\n" + (e.actorId + "\n" + (e.sessionId + "\n" + (e.deviceId + "\n" + (e.verb + "\n" +
      (e.objectRef + "\n" + (e.decision + "\n" + (e.reasonCode + "\n" + (e.result + "\n" + e.prevHash))))))))
  {
    var f := Fields(e);
    assert Join(f[8..]) == f[8] + [LF] + f[9];
    JoinFrom(f, 7);
    JoinFrom(f, 6);
    JoinFrom(f, 5);
    JoinFrom(f, 4);
    JoinFrom(f, 3);
    JoinFrom(f, 2);
    JoinFrom(f, 1);
    JoinFrom(f, 0);
    assert f[0..] == f;
  }

  lemma JoinFrom(f: seq<string>, i: nat)
    requires i + 1 < |f|
    ensures Join(f[i..]) == f[i] + [LF] + Join(f[i + 1..])
  {
  }

  /** No digest is the genesis string. */
  lemma NeverGenesis(sha: Sha, e: Event)
    ensures ComputeHash(sha, e) != GENESIS
  {
  }

  predicate SameHashed(a: Event, b: Event) {
    && a.seqNo == b.seqNo && a.actorId == b.actorId && a.sessionId == b.sessionId
    && a.deviceId == b.deviceId && a.verb == b.verb && a.objectRef == b.objectRef
    && a.decision == b.decision && a.reasonCode == b.reasonCode && a.result == b.result
    && a.prevHash == b.prevHash
  }

  lemma SameFields(a: Event, b: Event)
    ensures Fields(a) == Fields(b) <==> SameHashed(a, b)
  {
    if Fields(a) == Fields(b) {
      var f, g := Fields(a), Fields(b);
      assert f[0] == g[0] && f[1] == g[1] && f[2] == g[2] && f[3] == g[3] && f[4] == g[4];
      assert f[5] == g[5] && f[6] == g[6] && f[7] == g[7] && f[8] == g[8] && f[9] == g[9];
      DecimalInjective(a.seqNo, b.seqNo);
    }
  }

  /** Every hashed field is on one line. */
  predicate Plain(e: Event) {
    && OneLine(e.actorId) && OneLine(e.sessionId) && OneLine(e.deviceId) && OneLine(e.verb)
    && OneLine(e.objectRef) && OneLine(e.decision) && OneLine(e.reasonCode) && OneLine(e.result)
    && OneLine(e.prevHash)
  }

  /** As Plain, but Result may run over several lines: it carries error texts. */
  predicate Separable(e: Event) {
    Plain(e.(result := ""))
  }

  lemma PlainFields(e: Event)
    ensures Plain(e) <==> forall i :: 0 <= i < 10 ==> OneLine(Fields(e)[i])
  {
    var f := Fields(e);
    assert f[1] == e.actorId && f[2] == e.sessionId && f[3] == e.deviceId && f[4] == e.verb;
    assert f[5] == e.objectRef && f[6] == e.decision && f[7] == e.reasonCode && f[8] == e.result;
    assert f[9] == e.prevHash;
  }

  /** The event whose hashed strings are `fs[1..]`. */
  function WithFields(e: Event, fs: seq<string>): (r: Event)
    requires |fs| == 10 && fs[0] == Decimal(e.seqNo)
    ensures Fields(r) == fs
  {
    var r := e.(actorId := fs[1], sessionId := fs[2], deviceId := fs[3], verb := fs[4], objectRef := fs[5],
                decision := fs[6], reasonCode := fs[7], result := fs[8], prevHash := fs[9]);
    assert Fields(r) == fs;
    r
  }

  /** Moving text across the separator between two fields makes another event with the
      same hash input. */
  lemma ShiftedTwin(e: Event, j: nat, a: string, b: string) returns (twin: Event)
    requires 0 < j < 9 && a + [LF] + b == Fields(e)[j] + [LF] + Fields(e)[j + 1] && a != Fields(e)[j]
    ensures Canonical(twin) == Canonical(e) && !SameHashed(twin, e)
    ensures twin.hash == e.hash && (j < 8 ==> twin.prevHash == e.prevHash)
  {
    var f := Fields(e);
    JoinShift(f, j, a, b);
    twin := WithFields(e, f[j := a][j + 1 := b]);
    assert Fields(twin)[j] == a;
    SameFields(twin, e);
  }

  /** An event with a newline in a hashed string has the hash input of another, which
      has the same link and stored hash unless the newline is in the link itself. */
  lemma NewlineMakesTwins(e: Event) returns (twin: Event)
    requires !Plain(e)
    ensures Canonical(twin) == Canonical(e) && !SameHashed(twin, e) && twin.hash == e.hash
    ensures OneLine(e.prevHash) ==> twin.prevHash == e.prevHash
  {
    var f := Fields(e);
    PlainFields(e);
    var i :| 0 <= i < 10 && !OneLine(f[i]);
    var k := FirstBreak(f[i]);
    var x, y := f[i][..k], f[i][k + 1..];
    assert f[i] == x + [LF] + y;
    if i < 8 {
      Reassociated(x, y, f[i + 1]);
      twin := ShiftedTwin(e, i, x, y + [LF] + f[i + 1]);
    } else {
      Reassociated(f[i - 1], x, y);
      twin := ShiftedTwin(e, i - 1, f[i - 1] + [LF] + x, y);
    }
  }

  /** The canonical text of an event belongs to no event with other hashed fields
      exactly when each of its hashed strings is on one line. */
  lemma UnambiguousIffPlain(e: Event)
    ensures (forall o: Event :: Canonical(o) == Canonical(e) ==> SameHashed(o, e)) <==> Plain(e)
  {
    if Plain(e) {
      PlainFields(e);
      forall o: Event | Canonical(o) == Canonical(e)
        ensures SameHashed(o, e)
      {
        JoinUnique(Fields(e), Fields(o));
        SameFields(o, e);
      }
    } else {
      var twin := NewlineMakesTwins(e);
      assert Canonical(twin) == Canonical(e) && !SameHashed(twin, e);
    }
  }

  /** Between two events it is enough that the fields other than Result are on one
      line: Result is pinned between the eighth newline and the last. */
  lemma SeparableInjective(a: Event, b: Event)
    requires Separable(a) && Separable(b) && Canonical(a) == Canonical(b)
    ensures SameHashed(a, b)
  {
    var f, g := Fields(a), Fields(b);
    PlainFields(a.(result := ""));
    PlainFields(b.(result := ""));
    assert forall i :: 0 <= i < 8 ==> f[i] == Fields(a.(result := ""))[i] && g[i] == Fields(b.(result := ""))[i];
    HeadsPinned(f, g, 8);
    assert Join(f[8..]) == f[8] + [LF] + f[9] && Join(g[8..]) == g[8] + [LF] + g[9];
    TailPinned(f[8], f[9], g[8], g[9]);
    assert f == f[..8] + [f[8], f[9]] && g == g[..8] + [g[8], g[9]];
    SameFields(a, b);
  }

  lemma {:induction false} HeadsPinned(f: seq<string>, g: seq<string>, n: nat)
    requires |f| == |g| && n < |f| && Join(f) == Join(g)
    requires forall i :: 0 <= i < n ==> OneLine(f[i]) && OneLine(g[i])
    ensures f[..n] == g[..n] && Join(f[n..]) == Join(g[n..])
    decreases n
  {
    if n == 0 {
      assert f[0..] == f && g[0..] == g;
    } else {
      HeadsPinned(f, g, n - 1);
      JoinFrom(f, n - 1);
      JoinFrom(g, n - 1);
      HeadPinned(f[n - 1], Join(f[n..]), g[n - 1], Join(g[n..]));
      assert f[..n] == f[..n - 1] + [f[n - 1]] && g[..n] == g[..n - 1] + [g[n - 1]];
    }
  }

  /** The sequence number and, where both are on one line, the links are pinned by the
      hash input whatever the other fields hold. */
  lemma EndsPinned(a: Event, b: Event)
    requires Canonical(a) == Canonical(b) && OneLine(a.prevHash) && OneLine(b.prevHash)
    ensures a.seqNo == b.seqNo && a.prevHash == b.prevHash
  {
    var f, g := Fields(a), Fields(b);
    HeadPinned(f[0], Join(f[1..]), g[0], Join(g[1..]));
    DecimalInjective(a.seqNo, b.seqNo);
    JoinLast(f);
    JoinLast(g);
    TailPinned(Join(f[..9]), f[9], Join(g[..9]), g[9]);
  }

  /* ---- Chains ---- */

  /** The hash that the event at `i` must link to. */
  function LinkAt(es: seq<Event>, i: nat): string
    requires i <= |es|
  {
    if i == 0 then GENESIS else es[i - 1].hash
  }

  predicate Sound(sha: Sha, es: seq<Event>, i: nat)
    requires i < |es|
  {
    es[i].prevHash == LinkAt(es, i) && es[i].hash == ComputeHash(sha, es[i])
  }

  ghost predicate ValidChain(sha: Sha, es: seq<Event>) {
    forall i :: 0 <= i < |es| ==> Sound(sha, es, i)
  }

  datatype Reason =
    | NotGenesis
    | HashMismatch(stored: string, computed: string)
    | LinkMismatch(got: string, wanted: string)

  datatype Verdict = Intact | Tampered(eventSeq: int, reason: Reason)

  /** VerifyEvents: accepts exactly the valid chains. A rejection is of the first unsound
      event: it carries that event's number, and says whether it is a first event that is
      not linked to genesis, or else one whose hash does not recompute, or else one that is
      not linked to the event before. */
  method VerifyEvents(sha: Sha, es: seq<Event>) returns (v: Verdict, ghost i: nat)
    ensures v == Intact <==> ValidChain(sha, es)
    ensures v != Intact ==>
      && i < |es| && !Sound(sha, es, i) && ValidChain(sha, es[..i]) && v.eventSeq == es[i].seqNo
      && (v.reason == NotGenesis <==> i == 0 && es[0].prevHash != "sha256:genesis")
      && (v.reason.HashMismatch?
          <==> !(i == 0 && es[0].prevHash != "sha256:genesis") && es[i].hash != ComputeHash(sha, es[i]))
      && (v.reason.HashMismatch? ==> v.reason == HashMismatch(es[i].hash, ComputeHash(sha, es[i])))
      && (v.reason.LinkMismatch? ==> 0 < i && v.reason == LinkMismatch(es[i].prevHash, es[i - 1].hash))
  {
    i := 0;
    if |es| == 0 {
      v := Intact;
      return;
    }
    if es[0].prevHash != GENESIS {
      assert !Sound(sha, es, 0) && ValidChain(sha, es[..0]);
      v := Tampered(es[0].seqNo, NotGenesis);
      return;
    }
    for k := 0 to |es|
      invariant forall j :: 0 <= j < k ==> Sound(sha, es, j)
    {
      var e := es[k];
      var recomputed := ComputeHash(sha, e);
      i := k;
      if recomputed != e.hash {
        PrefixValid(sha, es, k);
        assert !Sound(sha, es, k);
        v := Tampered(e.seqNo, HashMismatch(e.hash, recomputed));
        return;
      }
      if k > 0 {
        if e.prevHash != es[k - 1].hash {
          PrefixValid(sha, es, k);
          assert !Sound(sha, es, k);
          v := Tampered(e.seqNo, LinkMismatch(e.prevHash, es[k - 1].hash));
          return;
        }
      }
      assert Sound(sha, es, k);
    }
    v := Intact;
  }

  lemma PrefixValid(sha: Sha, es: seq<Event>, n: nat)
    requires n <= |es| && forall i :: 0 <= i < n ==> Sound(sha, es, i)
    ensures ValidChain(sha, es[..n])
  {
    forall i | 0 <= i < n
      ensures Sound(sha, es[..n], i)
    {
      assert Sound(sha, es, i);
      assert LinkAt(es[..n], i) == LinkAt(es, i);
    }
  }

  lemma ChainExtends(sha: Sha, es: seq<Event>, e: Event)
    requires ValidChain(sha, es)
    ensures ValidChain(sha, es + [e])
       <==> e.prevHash == LinkAt(es, |es|) && e.hash == ComputeHash(sha, e)
  {
    var all := es + [e];
    assert LinkAt(all, |es|) == LinkAt(es, |es|);
    assert all[|es|] == e;
    forall i | 0 <= i < |es|
      ensures Sound(sha, all, i)
    {
      assert Sound(sha, es, i) && LinkAt(all, i) == LinkAt(es, i);
    }
    assert Sound(sha, all, |es|) <==> e.prevHash == LinkAt(es, |es|) && e.hash == ComputeHash(sha, e);
  }

  /* ---- The final hash fixes the history ---- */

  /** SHA-256 does not collide between the texts hashed in `a` and those hashed in `b`. */
  ghost predicate NoCollision(sha: Sha, a: seq<Event>, b: seq<Event>) {
    forall i, j {:trigger Canonical(a[i]), Canonical(b[j])} ::
      0 <= i < |a| && 0 <= j < |b| && sha(Canonical(a[i])) == sha(Canonical(b[j])) ==>
      Canonical(a[i]) == Canonical(b[j])
  }

  /** Same hash input, number, link and stored hash. */
  predicate SameText(a: Event, b: Event) {
    Canonical(a) == Canonical(b) && a.seqNo == b.seqNo && a.prevHash == b.prevHash && a.hash == b.hash
  }

  ghost predicate SameTexts(a: seq<Event>, b: seq<Event>) {
    |a| == |b| && forall i :: 0 <= i < |a| ==> SameText(a[i], b[i])
  }

  ghost predicate SameHistory(a: seq<Event>, b: seq<Event>) {
    |a| == |b| && forall i :: 0 <= i < |a| ==> SameHashed(a[i], b[i]) && a[i].hash == b[i].hash
  }

  /** One hash input for two events with different fields. */
  predicate Twins(a: Event, b: Event) {
    SameText(a, b) && !SameHashed(a, b)
  }

  lemma LinksAreOneLine(sha: Sha, es: seq<Event>, i: nat)
    requires ValidChain(sha, es) && i < |es|
    ensures OneLine(es[i].prevHash)
  {
    assert Sound(sha, es, i);
    if 0 < i {
      assert Sound(sha, es, i - 1);
    }
  }

  /** Equal hashes inside two chains are equal positions: none of them is genesis
      without being the start, and equal digests come from equal texts. */
  lemma LinksAgree(sha: Sha, a: seq<Event>, b: seq<Event>, m: nat, n: nat)
    requires ValidChain(sha, a) && ValidChain(sha, b) && m <= |a| && n <= |b|
    requires NoCollision(sha, a, b)
    requires LinkAt(a, m) == LinkAt(b, n)
    ensures m == 0 <==> n == 0
    ensures 0 < m ==> SameText(a[m - 1], b[n - 1]) && LinkAt(a, m - 1) == LinkAt(b, n - 1)
  {
    if 0 < m {
      assert Sound(sha, a, m - 1);
      NeverGenesis(sha, a[m - 1]);
    }
    if 0 < n {
      assert Sound(sha, b, n - 1);
      NeverGenesis(sha, b[n - 1]);
    }
    if 0 < m && 0 < n {
      assert ComputeHash(sha, a[m - 1])[7..] == sha(Canonical(a[m - 1]));
      assert ComputeHash(sha, b[n - 1])[7..] == sha(Canonical(b[n - 1]));
      LinksAreOneLine(sha, a, m - 1);
      LinksAreOneLine(sha, b, n - 1);
      EndsPinned(a[m - 1], b[n - 1]);
    }
  }

  /** Walks two chains back from a common hash to genesis. */
  lemma {:induction false} WalkBack(sha: Sha, a: seq<Event>, b: seq<Event>, m: nat, n: nat)
    requires ValidChain(sha, a) && ValidChain(sha, b) && m <= |a| && n <= |b|
    requires NoCollision(sha, a, b)
    requires LinkAt(a, m) == LinkAt(b, n)
    ensures m == n && forall i :: 0 <= i <= m ==> LinkAt(a, i) == LinkAt(b, i)
    decreases m
  {
    LinksAgree(sha, a, b, m, n);
    if 0 < m {
      WalkBack(sha, a, b, m - 1, n - 1);
    }
  }

  /** Two accepted logs that end in the same hash have equal length and, event for
      event, the same hash input, number, link and hash. They agree on every hashed
      field where the fields other than Result are on one line in both. */
  lemma FinalHashFixesHistory(sha: Sha, a: seq<Event>, b: seq<Event>)
    requires ValidChain(sha, a) && ValidChain(sha, b) && NoCollision(sha, a, b)
    requires a != [] && b != [] && a[|a| - 1].hash == b[|b| - 1].hash
    ensures SameTexts(a, b)
    ensures forall i :: 0 <= i < |a| && Separable(a[i]) && Separable(b[i]) ==> SameHashed(a[i], b[i])
  {
    WalkBack(sha, a, b, |a|, |b|);
    forall i | 0 <= i < |a|
      ensures SameText(a[i], b[i])
    {
      LinksAgree(sha, a, b, i + 1, i + 1);
    }
    forall i | 0 <= i < |a| && Separable(a[i]) && Separable(b[i])
      ensures SameHashed(a[i], b[i])
    {
      SeparableInjective(a[i], b[i]);
    }
  }

  /** Without any assumption on the digest or the fields: two accepted logs that end in
      the same hash and are not the same history exhibit a collision between their own
      hash inputs, or differ in an event with a newline in a hashed field, one of the
      two in a field other than Result. */
  lemma OtherHistoryNeedsCollision(sha: Sha, a: seq<Event>, b: seq<Event>) returns (i: nat, j: nat)
    requires ValidChain(sha, a) && ValidChain(sha, b)
    requires a != [] && b != [] && a[|a| - 1].hash == b[|b| - 1].hash
    requires !SameHistory(a, b)
    ensures i < |a| && j < |b| && sha(Canonical(a[i])) == sha(Canonical(b[j]))
    ensures Canonical(a[i]) != Canonical(b[j])
         || (i == j && Twins(a[i], b[i]) && !Plain(a[i]) && !Plain(b[i]) && !(Separable(a[i]) && Separable(b[i])))
  {
    if NoCollision(sha, a, b) {
      FinalHashFixesHistory(sha, a, b);
      i :| 0 <= i < |a| && !SameHashed(a[i], b[i]);
      j := i;
      UnambiguousIffPlain(a[i]);
      UnambiguousIffPlain(b[i]);
      assert SameText(a[i], b[i]) && Canonical(b[i]) == Canonical(a[i]);
    } else {
      i, j :| 0 <= i < |a| && 0 <= j < |b| && sha(Canonical(a[i])) == sha(Canonical(b[j]))
              && Canonical(a[i]) != Canonical(b[j]);
    }
  }

  /** Against a log of any content, it is enough that one's own fields are on one line. */
  lemma FinalHashFixesPlainHistory(sha: Sha, a: seq<Event>, b: seq<Event>)
    requires ValidChain(sha, a) && ValidChain(sha, b) && NoCollision(sha, a, b)
    requires a != [] && b != [] && a[|a| - 1].hash == b[|b| - 1].hash
    requires forall i :: 0 <= i < |a| ==> Plain(a[i])
    ensures SameHistory(a, b)
  {
    FinalHashFixesHistory(sha, a, b);
    forall i | 0 <= i < |a|
      ensures SameHashed(a[i], b[i])
    {
      UnambiguousIffPlain(a[i]);
      assert SameText(a[i], b[i]) && Canonical(b[i]) == Canonical(a[i]);
    }
  }

  /** A twin can stand in for its event in an accepted log. */
  lemma TwinStandsIn(sha: Sha, a: seq<Event>, k: nat, twin: Event)
    requires ValidChain(sha, a) && k < |a| && SameText(twin, a[k])
    ensures ValidChain(sha, a[k := twin])
  {
    var b := a[k := twin];
    forall i | 0 <= i < |b|
      ensures Sound(sha, b, i)
    {
      assert Sound(sha, a, i) && LinkAt(b, i) == LinkAt(a, i);
    }
  }

  /** An accepted log with a newline in a hashed string of an event can have that event
      altered, and nothing else, to another accepted log with the same hashes. */
  lemma AlteredLog(sha: Sha, a: seq<Event>, k: nat) returns (b: seq<Event>)
    requires ValidChain(sha, a) && k < |a| && !Plain(a[k])
    ensures ValidChain(sha, b) && SameTexts(a, b) && |a| == |b| && Twins(a[k], b[k]) && b == a[k := b[k]]
    ensures !SameHistory(a, b) && a[|a| - 1].hash == b[|b| - 1].hash
  {
    var twin := NewlineMakesTwins(a[k]);
    LinksAreOneLine(sha, a, k);
    EndsPinned(twin, a[k]);
    b := a[k := twin];
    TwinStandsIn(sha, a, k, twin);
  }

  ghost predicate SameEnd(a: seq<Event>, b: seq<Event>) {
    a != [] && b != [] && a[|a| - 1].hash == b[|b| - 1].hash
  }

  /** The last hash of an accepted log fixes its history, short of a collision, exactly
      when every hashed string in the log is on one line. */
  lemma LastHashDecidesIffPlain(sha: Sha, a: seq<Event>)
    requires ValidChain(sha, a) && a != [] && NoCollision(sha, a, a)
    ensures (forall b :: ValidChain(sha, b) && SameEnd(a, b) && NoCollision(sha, a, b) ==> SameHistory(a, b))
       <==> forall i :: 0 <= i < |a| ==> Plain(a[i])
  {
    if k :| 0 <= k < |a| && !Plain(a[k]) {
      var b := AlteredLog(sha, a, k);
      assert forall j :: 0 <= j < |b| ==> SameText(a[j], b[j]);
      assert ValidChain(sha, b) && SameEnd(a, b) && NoCollision(sha, a, b) && !SameHistory(a, b);
    } else {
      forall b | ValidChain(sha, b) && SameEnd(a, b) && NoCollision(sha, a, b)
        ensures SameHistory(a, b)
      {
        FinalHashFixesPlainHistory(sha, a, b);
      }
    }
  }
}
