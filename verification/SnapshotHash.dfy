/** Policy snapshots and what their hash covers. */
module SnapshotHash {
  import opened Text
  import opened Audit
  import opened JsonTexts

  /** The JSON texts of the three policy maps are taken as they are marshalled. */
  datatype Snapshot = Snapshot(
    snapshotId: string, createdAt: string, actorId: string, buildId: string, gitCommit: string,
    prevSnapshotId: string, roles: string, capabilities: string, posturePolicy: string, hash: string)

  function HashInput(s: Snapshot): string {
    Join([s.snapshotId, s.createdAt, s.actorId, s.buildId, s.gitCommit, s.prevSnapshotId])
    + s.roles + s.capabilities + s.posturePolicy
  }

  function ComputeSnapshotHash(sha: Sha, s: Snapshot): (h: string)
    ensures |h| == 71 && h[..7] == "sha256:" && h[7..] == sha(HashInput(s))
  {
    "sha256:" + sha(HashInput(s))
  }

  /** The texts that follow the last separator, with none between them. */
  function Policies(s: Snapshot): string { s.prevSnapshotId + s.roles + s.capabilities + s.posturePolicy }

  /** The input as a list of lines, the last one open. */
  function Parts(s: Snapshot): (ps: seq<string>)
    ensures |ps| == 6
  {
    [s.snapshotId, s.createdAt, s.actorId, s.buildId, s.gitCommit, Policies(s)]
  }

  lemma {:induction false} JoinThen(fs: seq<string>, x: string)
    requires fs != []
    ensures Join(fs) + x == Join(fs[|fs| - 1 := fs[|fs| - 1] + x])
  {
    var gs := fs[|fs| - 1 := fs[|fs| - 1] + x];
    if |fs| > 1 {
      assert gs[1..] == fs[1..][|fs| - 2 := fs[|fs| - 1] + x];
      JoinThen(fs[1..], x);
      assert (fs[0] + [LF] + Join(fs[1..])) + x == fs[0] + [LF] + (Join(fs[1..]) + x);
    }
  }

  lemma InputIsJoin(s: Snapshot)
    ensures HashInput(s) == Join(Parts(s))
  {
    var fs := [s.snapshotId, s.createdAt, s.actorId, s.buildId, s.gitCommit, s.prevSnapshotId];
    var tail := s.roles + s.capabilities + s.posturePolicy;
    assert HashInput(s) == Join(fs) + tail;
    JoinThen(fs, tail);
    assert s.prevSnapshotId + tail == Policies(s);
    assert fs[5 := fs[5] + tail] == Parts(s);
  }

  /** The layout of the hash input: five fields each with a newline after it, then the
      predecessor's id and the three policy texts in one. */
  lemma HashInputLayout(s: Snapshot)
    ensures HashInput(s) ==
      s.snapshotId + "\n" + (s.createdAt + "\n" + (s.actorId + "\n" + (s.buildId + "\n" + (s.gitCommit + "\n" +
      (s.prevSnapshotId + s.roles + s.capabilities + s.posturePolicy)))))
  {
    var f := Parts(s);
    InputIsJoin(s);
    assert Join(f[4..]) == f[4] + [LF] + f[5];
    JoinFrom(f, 3);
    JoinFrom(f, 2);
    JoinFrom(f, 1);
    JoinFrom(f, 0);
    assert f[0..] == f;
  }

  /** The first five fields are on one line each. */
  predicate OneLineHead(s: Snapshot) {
    OneLine(s.snapshotId) && OneLine(s.createdAt) && OneLine(s.actorId) && OneLine(s.buildId) && OneLine(s.gitCommit)
  }

  predicate SameHead(a: Snapshot, b: Snapshot) {
    && a.snapshotId == b.snapshotId && a.createdAt == b.createdAt && a.actorId == b.actorId
    && a.buildId == b.buildId && a.gitCommit == b.gitCommit
  }

  predicate SamePolicies(a: Snapshot, b: Snapshot) {
    && a.prevSnapshotId == b.prevSnapshotId && a.roles == b.roles && a.capabilities == b.capabilities
    && a.posturePolicy == b.posturePolicy
  }

  lemma SameParts(a: Snapshot, b: Snapshot)
    ensures Parts(a) == Parts(b) <==> SameHead(a, b) && Policies(a) == Policies(b)
  {
    if Parts(a) == Parts(b) {
      var f, g := Parts(a), Parts(b);
      assert f[0] == g[0] && f[1] == g[1] && f[2] == g[2] && f[3] == g[3] && f[4] == g[4] && f[5] == g[5];
    }
  }

  /** Between snapshots whose first five fields are on one line, and short of a collision,
      the hashes are equal exactly when these fields are and the remaining texts are, taken
      together. */
  lemma HashCovers(sha: Sha, a: Snapshot, b: Snapshot)
    requires OneLineHead(a) && OneLineHead(b)
    requires sha(HashInput(a)) == sha(HashInput(b)) ==> HashInput(a) == HashInput(b)
    ensures ComputeSnapshotHash(sha, a) == ComputeSnapshotHash(sha, b)
       <==> SameHead(a, b) && Policies(a) == Policies(b)
  {
    var f, g := Parts(a), Parts(b);
    InputIsJoin(a);
    InputIsJoin(b);
    SameParts(a, b);
    if ComputeSnapshotHash(sha, a) == ComputeSnapshotHash(sha, b) {
      assert Join(f) == Join(g);
      HeadsPinned(f, g, 5);
      assert Join(f[5..]) == f[5] && Join(g[5..]) == g[5];
      assert f == f[..5] + [f[5]] && g == g[..5] + [g[5]];
    }
  }

  /** Whatever is left of the four last texts taken together can be cut differently. */
  lemma RecutTwin(s: Snapshot) returns (twin: Snapshot)
    requires Policies(s) != ""
    ensures HashInput(twin) == HashInput(s) && SameHead(twin, s) && !SamePolicies(twin, s)
  {
    var text := Policies(s);
    if s.prevSnapshotId == "" {
      twin := s.(prevSnapshotId := text, roles := "", capabilities := "", posturePolicy := "");
    } else {
      twin := s.(prevSnapshotId := "", roles := text, capabilities := "", posturePolicy := "");
    }
    assert Policies(twin) == text;
    SameParts(twin, s);
    InputIsJoin(twin);
    InputIsJoin(s);
  }

  /** A newline in a field before the last lets text be moved into the next field. */
  lemma HeadTwin(s: Snapshot, i: nat) returns (twin: Snapshot)
    requires i < 5 && !OneLine(Parts(s)[i])
    ensures HashInput(twin) == HashInput(s) && !SameHead(twin, s)
  {
    var f := Parts(s);
    var k := FirstBreak(f[i]);
    var x, y := f[i][..k], f[i][k + 1..];
    assert f[i] == x + [LF] + y;
    Reassociated(x, y, f[i + 1]);
    twin := Reparted(s, f, i, x, y + [LF] + f[i + 1]);
  }

  lemma Reparted(s: Snapshot, f: seq<string>, i: nat, a: string, b: string) returns (twin: Snapshot)
    requires f == Parts(s) && i < 5 && a + [LF] + b == f[i] + [LF] + f[i + 1] && a != f[i]
    ensures HashInput(twin) == HashInput(s) && !SameHead(twin, s)
  {
    var g := f[i := a][i + 1 := b];
    JoinShift(f, i, a, b);
    twin := Snapshot(g[0], g[1], g[2], g[3], g[4], g[5], "", "", "", s.hash);
    assert Policies(twin) == g[5];
    assert Parts(twin) == g;
    InputIsJoin(twin);
    InputIsJoin(s);
    assert g[i] == a;
  }

  /** A newline in the last texts lets text be moved back into the field before them. */
  lemma TailTwin(s: Snapshot) returns (twin: Snapshot)
    requires !OneLine(Policies(s))
    ensures HashInput(twin) == HashInput(s) && !SameHead(twin, s)
  {
    var f := Parts(s);
    var k := FirstBreak(f[5]);
    var x, y := f[5][..k], f[5][k + 1..];
    assert f[5] == x + [LF] + y;
    Reassociated(f[4], x, y);
    twin := Reparted(s, f, 4, f[4] + [LF] + x, y);
  }

  /** Against snapshots of any content, the hash input fixes the first five fields and the
      remaining texts together exactly when all of them are on one line. */
  lemma HeadFixedIffOneLine(s: Snapshot)
    ensures (forall o: Snapshot :: HashInput(o) == HashInput(s) ==> SameHead(o, s) && Policies(o) == Policies(s))
       <==> OneLineHead(s) && OneLine(Policies(s))
  {
    var f := Parts(s);
    if OneLineHead(s) && OneLine(Policies(s)) {
      forall o: Snapshot | HashInput(o) == HashInput(s)
        ensures SameHead(o, s) && Policies(o) == Policies(s)
      {
        InputIsJoin(o);
        InputIsJoin(s);
        JoinUnique(f, Parts(o));
        SameParts(o, s);
      }
    } else if OneLine(Policies(s)) {
      assert !(OneLine(f[0]) && OneLine(f[1]) && OneLine(f[2]) && OneLine(f[3]) && OneLine(f[4]));
      var i :| 0 <= i < 5 && !OneLine(f[i]);
      var twin := HeadTwin(s, i);
      assert HashInput(twin) == HashInput(s) && !SameHead(twin, s);
    } else {
      var twin := TailTwin(s);
      assert HashInput(twin) == HashInput(s) && !SameHead(twin, s);
    }
  }

  /** As mere texts, the four last fields are told apart by the hash input exactly when
      there is nothing in them. */
  lemma PoliciesFixedIffEmpty(s: Snapshot)
    ensures (forall o: Snapshot :: HashInput(o) == HashInput(s) && SameHead(o, s) ==> SamePolicies(o, s))
       <==> Policies(s) == ""
  {
    if Policies(s) == "" {
      forall o: Snapshot | HashInput(o) == HashInput(s) && SameHead(o, s)
        ensures SamePolicies(o, s)
      {
        InputIsJoin(o);
        InputIsJoin(s);
        SameLast(Parts(o), Parts(s));
      }
    } else {
      var twin := RecutTwin(s);
      assert HashInput(twin) == HashInput(s) && SameHead(twin, s) && !SamePolicies(twin, s);
    }
  }

  lemma SameLast(f: seq<string>, g: seq<string>)
    requires |f| == |g| == 6 && f[..5] == g[..5] && Join(f) == Join(g)
    ensures f[5] == g[5]
  {
    JoinLast(f);
    JoinLast(g);
    var x, y := Join(f[..5]) + [LF] + f[5], Join(g[..5]) + [LF] + g[5];
    var n := |Join(f[..5])| + 1;
    assert x[n..] == f[5] && y[n..] == g[5];
  }

  /** The texts of maps, after whatever comes before them, are where they are. */
  lemma LastFixed(p: string, x: string, q: string, y: string)
    requires IsMapText(x) && IsMapText(y) && p + x == q + y
    ensures p == q && x == y
  {
    if |y| <= |x| {
      var u := x[..|x| - |y|];
      assert x[|x| - |y|..] == (p + x)[|p + x| - |y|..] == (q + y)[|q + y| - |y|..] == y;
      assert x == u + y;
      MapTextsSuffixFree(u, y);
    } else {
      var u := y[..|y| - |x|];
      assert y[|y| - |x|..] == (q + y)[|q + y| - |x|..] == (p + x)[|p + x| - |x|..] == x;
      assert y == u + x;
      MapTextsSuffixFree(u, x);
    }
    assert p == (p + x)[..|p|] && q == (q + y)[..|q|];
  }

  /** The three policies are marshalled maps. */
  ghost predicate Marshalled(s: Snapshot) {
    IsMapText(s.roles) && IsMapText(s.capabilities) && IsMapText(s.posturePolicy)
  }

  /** Though nothing separates them, marshalled maps and the predecessor before them can be
      told apart again: from the end. */
  lemma PoliciesFixed(a: Snapshot, b: Snapshot)
    requires Marshalled(a) && Marshalled(b) && Policies(a) == Policies(b)
    ensures SamePolicies(a, b)
  {
    LastFixed(a.prevSnapshotId + a.roles + a.capabilities, a.posturePolicy,
      b.prevSnapshotId + b.roles + b.capabilities, b.posturePolicy);
    LastFixed(a.prevSnapshotId + a.roles, a.capabilities, b.prevSnapshotId + b.roles, b.capabilities);
    LastFixed(a.prevSnapshotId, a.roles, b.prevSnapshotId, b.roles);
  }

  /** So the hash of a snapshot covers all of it: between snapshots with marshalled policies
      and the first five fields on one line, and short of a collision, equal hashes are
      those of equal contents. */
  lemma HashCoversAll(sha: Sha, a: Snapshot, b: Snapshot)
    requires OneLineHead(a) && OneLineHead(b) && Marshalled(a) && Marshalled(b)
    requires sha(HashInput(a)) == sha(HashInput(b)) ==> HashInput(a) == HashInput(b)
    ensures ComputeSnapshotHash(sha, a) == ComputeSnapshotHash(sha, b) <==> a.(hash := "") == b.(hash := "")
  {
    HashCovers(sha, a, b);
    if Policies(a) == Policies(b) {
      PoliciesFixed(a, b);
    }
  }
}
