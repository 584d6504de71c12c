/** The policy snapshot store: timestamped ids, "latest" by file name order, and the
    chain of predecessors that captures build. */
module Snapshots {
  import opened Common
  import opened Text
  import opened Audit
  import opened SnapshotHash

  /* ---- Ids and their order ---- */

  /** A UTC time to the second, with a year of at most four digits. */
  datatype TimeRaw = Time(year: nat, month: nat, day: nat, hour: nat, minute: nat, second: nat)
  type Time = t: TimeRaw |
      && t.year < 10000 && t.month < 100 && t.day < 100
      && t.hour < 100 && t.minute < 100 && t.second < 100
    witness Time(1, 1, 1, 0, 0, 0)

  /** Chronological order: field by field, largest unit first. */
  predicate Before(a: Time, b: Time) {
    || a.year < b.year
    || (a.year == b.year && (a.month < b.month
    || (a.month == b.month && (a.day < b.day
    || (a.day == b.day && (a.hour < b.hour
    || (a.hour == b.hour && (a.minute < b.minute
    || (a.minute == b.minute && a.second < b.second)))))))))
  }

  lemma BeforeIsTotal(a: Time, b: Time)
    ensures a == b || Before(a, b) || Before(b, a)
    ensures !(Before(a, b) && Before(b, a)) && !Before(a, a)
  {
  }

  function Pow10(w: nat): nat { if w == 0 then 1 else 10 * Pow10(w - 1) }

  /** `n` in exactly `w` digits. */
  function Pad(w: nat, n: nat): (s: string)
    ensures |s| == w
  {
    if w == 0 then "" else Pad(w - 1, n / 10) + [DigitChar(n % 10)]
  }

  /** Format("20060102T150405Z") */
  function Format(t: Time): (s: string)
    ensures |s| == 16 && s[8] == 'T' && s[15] == 'Z'
  {
    Pad(4, t.year) + (Pad(2, t.month) + (Pad(2, t.day) + ("T" +
      (Pad(2, t.hour) + (Pad(2, t.minute) + (Pad(2, t.second) + "Z"))))))
  }

  /** NewSnapshotID */
  function SnapshotId(t: Time): (id: string)
    ensures |id| == 21 && id[..5] == "snap-"
  {
    "snap-" + Format(t)
  }

  const JSON := ".json"

  /** Go's order on strings. */
  predicate Less(a: string, b: string) {
    b != [] && (a == [] || a[0] < b[0] || (a[0] == b[0] && Less(a[1..], b[1..])))
  }

  lemma {:induction false} LessAppend(a: string, x: string, b: string, y: string)
    requires |a| == |b|
    ensures Less(a + x, b + y) <==> Less(a, b) || (a == b && Less(x, y))
  {
    if a == [] {
      assert a + x == x && b + y == y;
    } else {
      assert (a + x)[1..] == a[1..] + x && (b + y)[1..] == b[1..] + y;
      assert a == [a[0]] + a[1..] && b == [b[0]] + b[1..];
      LessAppend(a[1..], x, b[1..], y);
    }
  }

  lemma {:induction false} LessIrreflexive(a: string)
    ensures !Less(a, a)
  {
    if a != [] {
      LessIrreflexive(a[1..]);
    }
  }

  lemma {:induction false} LessTotal(a: string, b: string)
    ensures a == b || Less(a, b) || Less(b, a)
  {
    if a != [] && b != [] {
      LessTotal(a[1..], b[1..]);
      assert a == [a[0]] + a[1..] && b == [b[0]] + b[1..];
    }
  }

  lemma {:induction false} LessTransitive(a: string, b: string, c: string)
    requires Less(a, b) && Less(b, c)
    ensures Less(a, c)
  {
    if a != [] && a[0] == b[0] == c[0] {
      LessTransitive(a[1..], b[1..], c[1..]);
    }
  }

  /** Fixed-width numbers are ordered as their digits are. */
  lemma {:induction false} PadOrder(w: nat, m: nat, n: nat)
    requires m < Pow10(w) && n < Pow10(w)
    ensures Less(Pad(w, m), Pad(w, n)) <==> m < n
    ensures Pad(w, m) == Pad(w, n) <==> m == n
  {
    if w != 0 {
      PadOrder(w - 1, m / 10, n / 10);
      var x, y := [DigitChar(m % 10)], [DigitChar(n % 10)];
      LessAppend(Pad(w - 1, m / 10), x, Pad(w - 1, n / 10), y);
      assert Less(x, y) <==> m % 10 < n % 10;
      assert Pad(w, m)[..w - 1] == Pad(w - 1, m / 10) && Pad(w, n)[..w - 1] == Pad(w - 1, n / 10);
      assert Pad(w, m)[w - 1] == x[0] && Pad(w, n)[w - 1] == y[0];
    }
  }

  lemma PadThenOrder(w: nat, m: nat, x: string, n: nat, y: string)
    requires m < Pow10(w) && n < Pow10(w)
    ensures Less(Pad(w, m) + x, Pad(w, n) + y) <==> m < n || (m == n && Less(x, y))
  {
    PadOrder(w, m, n);
    LessAppend(Pad(w, m), x, Pad(w, n), y);
  }

  /** The order of formatted times is the order of the times. */
  lemma FormatOrder(a: Time, b: Time)
    ensures Less(Format(a), Format(b)) <==> Before(a, b)
  {
    assert Pow10(2) == 100;
    assert Pow10(4) == 10000 by {
      assert Pow10(3) == 1000;
    }
    var sa, sb := Pad(2, a.second) + "Z", Pad(2, b.second) + "Z";
    var ma, mb := Pad(2, a.minute) + sa, Pad(2, b.minute) + sb;
    var ha, hb := Pad(2, a.hour) + ma, Pad(2, b.hour) + mb;
    var da, db := Pad(2, a.day) + ("T" + ha), Pad(2, b.day) + ("T" + hb);
    PadThenOrder(2, a.second, "Z", b.second, "Z");
    LessIrreflexive("Z");
    PadThenOrder(2, a.minute, sa, b.minute, sb);
    PadThenOrder(2, a.hour, ma, b.hour, mb);
    LessAppend("T", ha, "T", hb);
    LessIrreflexive("T");
    PadThenOrder(2, a.day, "T" + ha, b.day, "T" + hb);
    PadThenOrder(2, a.month, da, b.month, db);
    PadThenOrder(4, a.year, Pad(2, a.month) + da, b.year, Pad(2, b.month) + db);
  }

  /** Generated ids sort chronologically, and tell times apart. */
  lemma IdOrder(a: Time, b: Time)
    ensures Less(SnapshotId(a), SnapshotId(b)) <==> Before(a, b)
    ensures SnapshotId(a) == SnapshotId(b) <==> a == b
  {
    FormatOrder(a, b);
    FormatOrder(b, a);
    LessIrreflexive("snap-");
    LessAppend("snap-", Format(a), "snap-", Format(b));
    BeforeIsTotal(a, b);
    LessIrreflexive(Format(a));
    assert SnapshotId(a)[5..] == Format(a) && SnapshotId(b)[5..] == Format(b);
  }

  /** Among ids of one length, file names are ordered as the ids are. */
  lemma NameOrder(a: string, b: string)
    requires |a| == |b|
    ensures Less(a + JSON, b + JSON) <==> Less(a, b)
    ensures a + JSON == b + JSON <==> a == b
  {
    LessAppend(a, JSON, b, JSON);
    LessIrreflexive(JSON);
    assert (a + JSON)[..|a|] == a && (b + JSON)[..|b|] == b;
  }

  /* ---- The store ---- */

  datatype Entry = Folder | Unparsable | Document(snapshot: Snapshot)
  type Directory = map<string, Entry>

  datatype Lookup = Found(snapshot: Snapshot) | Missing | Broken

  function Get(dir: Directory, id: string): Lookup {
    if id + JSON !in dir then Missing
    else if !dir[id + JSON].Document? then Broken
    else Found(dir[id + JSON].snapshot)
  }

  /** filepath.Ext(name) == ".json" */
  predicate IsJson(name: string) {
    |JSON| <= |name| && name[|name| - |JSON|..] == JSON
  }

  predicate Listed(dir: Directory, name: string) {
    name in dir && !dir[name].Folder? && IsJson(name)
  }

  /** No listed name comes after `top`. */
  ghost predicate IsGreatest(dir: Directory, top: string) {
    Listed(dir, top) && forall n :: Listed(dir, n) ==> n == top || Less(n, top)
  }

  lemma LessAntisymmetric(a: string, b: string)
    requires a == b || Less(a, b)
    requires b == a || Less(b, a)
    ensures a == b
  {
  }

  ghost predicate Ordered(s: seq<string>) {
    forall i, j :: 0 <= i < j < |s| ==> s[i] == s[j] || Less(s[i], s[j])
  }

  /** sort.Strings: ascending, with the same elements. */
  method SortStrings(names: seq<string>) returns (sorted: seq<string>)
    ensures Ordered(sorted) && multiset(sorted) == multiset(names)
    ensures |sorted| == |names| && forall n :: n in sorted <==> n in names
  {
    sorted := [];
    for k := 0 to |names|
      invariant Ordered(sorted) && multiset(sorted) == multiset(names[..k]) && |sorted| == k
    {
      assert names[..k + 1] == names[..k] + [names[k]];
      sorted := Insert(sorted, names[k]);
    }
    assert names[..|names|] == names;
    SameMembers(sorted, names);
  }

  lemma SameMembers(a: seq<string>, b: seq<string>)
    requires multiset(a) == multiset(b)
    ensures forall n :: n in a <==> n in b
  {
    assert forall n :: n in a <==> n in multiset(a);
    assert forall n :: n in b <==> n in multiset(b);
  }

  method Insert(sorted: seq<string>, x: string) returns (r: seq<string>)
    requires Ordered(sorted)
    ensures Ordered(r) && multiset(r) == multiset(sorted) + multiset{x} && |r| == |sorted| + 1
  {
    var i := 0;
    while i < |sorted| && (sorted[i] == x || Less(sorted[i], x))
      invariant 0 <= i <= |sorted|
      invariant forall j :: 0 <= j < i ==> sorted[j] == x || Less(sorted[j], x)
    {
      i := i + 1;
    }
    InsertOrdered(sorted, i, x);
    assert sorted == sorted[..i] + sorted[i..];
    r := sorted[..i] + [x] + sorted[i..];
  }

  lemma InsertOrdered(s: seq<string>, i: nat, x: string)
    requires Ordered(s) && i <= |s|
    requires forall j :: 0 <= j < i ==> s[j] == x || Less(s[j], x)
    requires i < |s| ==> !(s[i] == x || Less(s[i], x))
    ensures Ordered(s[..i] + [x] + s[i..])
  {
    var r := s[..i] + [x] + s[i..];
    forall j, k | 0 <= j < k < |r|
      ensures r[j] == r[k] || Less(r[j], r[k])
    {
      if j == i {
        LessTotal(s[i], x);
        if i < k - 1 && Less(x, s[i]) && Less(s[i], s[k - 1]) {
          LessTransitive(x, s[i], s[k - 1]);
        }
      }
    }
  }

  /** The greatest name of a nonempty set. */
  lemma {:induction false} GreatestOf(names: set<string>) returns (top: string)
    requires names != {}
    ensures top in names && forall n :: n in names ==> n == top || Less(n, top)
    decreases |names|
  {
    top :| top in names;
    var others := names - {top};
    if others != {} {
      var next := GreatestOf(others);
      LessTotal(next, top);
      if Less(top, next) {
        top := next;
      } else {
        forall n | n in others
          ensures n == top || Less(n, top)
        {
          if Less(n, next) && Less(next, top) {
            LessTransitive(n, next, top);
          }
        }
      }
    }
  }

  lemma GreatestExists(dir: Directory, name: string) returns (top: string)
    requires Listed(dir, name)
    ensures IsGreatest(dir, top) && (name == top || Less(name, top))
  {
    var names := set n | n in dir && Listed(dir, n);
    assert name in names;
    top := GreatestOf(names);
  }

  lemma GreatestUnique(dir: Directory, a: string, b: string)
    requires IsGreatest(dir, a) && IsGreatest(dir, b)
    ensures a == b
  {
    LessAntisymmetric(a, b);
  }

  function Reading(entry: Entry): Lookup {
    if entry.Document? then Found(entry.snapshot) else Broken
  }

  /** What Latest means: the entry with the greatest `.json` name, if there is one. */
  ghost function LatestOf(dir: Directory): Lookup {
    if top :| IsGreatest(dir, top) then Reading(dir[top]) else Missing
  }

  /** The id that a capture points at. */
  ghost function PrevOf(dir: Directory): string {
    match LatestOf(dir)
    case Found(s) => s.snapshotId
    case _ => ""
  }

  function Captured(sha: Sha, id: string, details: Snapshot, prevId: string): Snapshot {
    var s := details.(snapshotId := id, prevSnapshotId := prevId);
    s.(hash := ComputeSnapshotHash(sha, s))
  }

  /** The store after a capture under `id`. */
  ghost function AfterCapture(sha: Sha, dir: Directory, id: string, details: Snapshot): Directory {
    dir[id + JSON := Document(Captured(sha, id, details, PrevOf(dir)))]
  }

  /** How storing a file can fail: nothing is written, or a file that does not parse, or
      the whole file is written and the failure comes after it. */
  datatype WriteFault = NoFault | NotWritten | Spoilt | FailedAfterWriting

  /** The store after trying to capture under `id`. */
  ghost function AfterAttempt(sha: Sha, dir: Directory, id: string, details: Snapshot, fault: WriteFault): Directory {
    var name := id + JSON;
    if fault.NotWritten? || (name in dir && dir[name].Folder?) then dir
    else if fault.Spoilt? then dir[name := Unparsable]
    else AfterCapture(sha, dir, id, details)
  }

  class SnapshotStore {
    var dir: Directory

    constructor ()
      ensures dir == map[]
    {
      dir := map[];
    }

    /** Write: sets the snapshot's hash and stores it under its id. A folder of that name
        makes it fail. */
    method Write(sha: Sha, snap: Snapshot, fault: WriteFault) returns (written: Snapshot, ok: bool)
      modifies this
      ensures written == snap.(hash := ComputeSnapshotHash(sha, snap))
      ensures written.hash == ComputeSnapshotHash(sha, written)
      ensures
        var name := snap.snapshotId + ".json";
        var blocked := name in old(dir) && old(dir)[name].Folder?;
        && (ok <==> !blocked && fault.NoFault?)
        && dir == if blocked || fault.NotWritten? then old(dir)
                  else old(dir)[name := if fault.Spoilt? then Unparsable else Document(written)]
      ensures ok ==> Get(dir, snap.snapshotId) == Found(written)
    {
      written := snap.(hash := ComputeSnapshotHash(sha, snap));
      var name := snap.snapshotId + JSON;
      ok := false;
      if name in dir && dir[name].Folder? {
        return;
      }
      match fault {
        case NotWritten =>
        case Spoilt =>
          dir := dir[name := Unparsable];
        case FailedAfterWriting =>
          dir := dir[name := Document(written)];
        case NoFault =>
          dir := dir[name := Document(written)];
          ok := true;
      }
    }

    /** The names that Latest sorts, in whatever order the directory gives them. */
    method JsonNames() returns (names: seq<string>)
      ensures forall n :: n in names <==> Listed(dir, n)
    {
      names := [];
      var left := dir.Keys;
      while left != {}
        invariant left <= dir.Keys
        invariant forall n :: n in names <==> Listed(dir, n) && n !in left
        decreases |left|
      {
        var n :| n in left;
        if !dir[n].Folder? && IsJson(n) {
          names := names + [n];
        }
        left := left - {n};
      }
    }

    /** Latest: the entry with the greatest `.json` name, which exists as soon as there is
        any such name; Missing when there is none. */
    method Latest() returns (r: Lookup)
      ensures r == LatestOf(dir)
      ensures r == Missing <==> forall n :: !Listed(dir, n)
      ensures (exists n :: Listed(dir, n)) ==> exists top :: IsGreatest(dir, top) && r == Reading(dir[top])
    {
      var names := JsonNames();
      if |names| == 0 {
        return Missing;
      }
      names := SortStrings(names);
      var latest := names[|names| - 1];
      assert latest in names;
      assert latest == latest[..|latest| - 5] + JSON;
      assert IsGreatest(dir, latest) by {
        forall n | Listed(dir, n)
          ensures n == latest || Less(n, latest)
        {
          assert n in names;
        }
      }
      forall top | IsGreatest(dir, top)
        ensures top == latest
      {
        GreatestUnique(dir, top, latest);
      }
      r := Get(dir, latest[..|latest| - 5]);
    }

    /** snapshot capture: the new snapshot points at the latest. An unreadable latest is
        taken as none. */
    method Capture(sha: Sha, id: string, details: Snapshot, fault: WriteFault) returns (snap: Snapshot, ok: bool)
      modifies this
      ensures ok <==> fault.NoFault? && !(id + JSON in old(dir) && old(dir)[id + JSON].Folder?)
      ensures dir == AfterAttempt(sha, old(dir), id, details, fault)
      ensures snap == Captured(sha, id, details, PrevOf(old(dir)))
      ensures snap == details.(snapshotId := id, prevSnapshotId := PrevOf(old(dir)), hash := snap.hash)
      ensures snap.hash == ComputeSnapshotHash(sha, snap)
    {
      var prevId := "";
      var latest := Latest();
      if latest.Found? {
        prevId := latest.snapshot.snapshotId;
      }
      snap, ok := Write(sha, details.(snapshotId := id, prevSnapshotId := prevId), fault);
    }
  }

  /** For any set of generated ids, the greatest file name is that of the latest time. */
  lemma GreatestIsNewest(dir: Directory, ts: set<Time>, t: Time)
    requires t in ts
    requires forall u :: u in ts ==> Listed(dir, SnapshotId(u) + JSON)
    requires forall n :: Listed(dir, n) ==> exists u :: u in ts && n == SnapshotId(u) + JSON
    ensures IsGreatest(dir, SnapshotId(t) + JSON) <==> forall u :: u in ts ==> u == t || Before(u, t)
  {
    forall u | u in ts
      ensures SnapshotId(u) + JSON == SnapshotId(t) + JSON <==> u == t
      ensures Less(SnapshotId(u) + JSON, SnapshotId(t) + JSON) <==> Before(u, t)
    {
      IdOrder(u, t);
      NameOrder(SnapshotId(u), SnapshotId(t));
    }
  }

  /** So, for any set of generated ids, Latest gives the snapshot of the greatest time. */
  lemma LatestIsNewest(dir: Directory, ts: set<Time>, t: Time)
    requires t in ts && forall u :: u in ts ==> u == t || Before(u, t)
    requires forall u :: u in ts ==> Listed(dir, SnapshotId(u) + JSON)
    requires forall n :: Listed(dir, n) ==> exists u :: u in ts && n == SnapshotId(u) + JSON
    ensures SnapshotId(t) + JSON in dir && LatestOf(dir) == Reading(dir[SnapshotId(t) + JSON])
  {
    GreatestIsNewest(dir, ts, t);
    LatestIs(dir, SnapshotId(t) + JSON);
  }

  lemma LatestIs(dir: Directory, top: string)
    requires IsGreatest(dir, top)
    ensures LatestOf(dir) == Reading(dir[top])
  {
    forall other | IsGreatest(dir, other)
      ensures other == top
    {
      GreatestUnique(dir, other, top);
    }
  }

  /* ---- The chain of captures ---- */

  /** Ids in capture order, each with the length of a generated id. */
  ghost predicate Ascending(ids: seq<string>) {
    && (forall i :: 0 <= i < |ids| ==> |ids[i]| == 21)
    && (forall i, j :: 0 <= i < j < |ids| ==> Less(ids[i], ids[j]))
  }

  /** The id that the snapshot taken `i`-th must point at. */
  function PrevAt(ids: seq<string>, i: nat): string
    requires i <= |ids|
  {
    if i == 0 then "" else ids[i - 1]
  }

  ghost predicate Holds(dir: Directory, id: string, prevId: string) {
    match Get(dir, id)
    case Found(s) => s.snapshotId == id && s.prevSnapshotId == prevId
    case _ => false
  }

  /** The `i`-th capture is stored and points at the one before it, or at nothing. */
  ghost predicate HoldsAt(dir: Directory, ids: seq<string>, i: nat)
    requires i < |ids|
  {
    Holds(dir, ids[i], PrevAt(ids, i))
  }

  ghost predicate Named(ids: seq<string>, n: string) {
    exists i :: 0 <= i < |ids| && n == ids[i] + JSON
  }

  /** The store holds exactly these snapshots, each pointing at the one before it and
      the first at nothing. */
  ghost predicate Chained(dir: Directory, ids: seq<string>) {
    && Ascending(ids)
    && (forall n :: n in dir ==> Named(ids, n))
    && (forall i :: 0 <= i < |ids| ==> HoldsAt(dir, ids, i))
  }

  ghost predicate IsChain(dir: Directory) {
    exists ids :: Chained(dir, ids)
  }

  /** In a chained store the greatest name is that of the last capture. */
  lemma ChainedGreatest(dir: Directory, ids: seq<string>)
    requires Chained(dir, ids) && ids != []
    ensures IsGreatest(dir, ids[|ids| - 1] + JSON)
  {
    var last := ids[|ids| - 1];
    var top := last + JSON;
    assert HoldsAt(dir, ids, |ids| - 1);
    assert top[|top| - |JSON|..] == JSON;
    forall n | Listed(dir, n)
      ensures n == top || Less(n, top)
    {
      var i :| 0 <= i < |ids| && n == ids[i] + JSON;
      NameOrder(ids[i], last);
    }
  }

  /** In a chained store a capture points at the last of the chain. */
  lemma ChainedPrev(dir: Directory, ids: seq<string>)
    requires Chained(dir, ids)
    ensures PrevOf(dir) == PrevAt(ids, |ids|)
  {
    if ids == [] {
      forall n
        ensures !IsGreatest(dir, n)
      {
        assert !Named(ids, n);
      }
    } else {
      ChainedGreatest(dir, ids);
      LatestIs(dir, ids[|ids| - 1] + JSON);
      assert HoldsAt(dir, ids, |ids| - 1);
    }
  }

  lemma AscendingOneMore(ids: seq<string>, id: string)
    requires Ascending(ids) && |id| == 21 && (ids == [] || Less(ids[|ids| - 1], id))
    ensures Ascending(ids + [id])
    ensures forall i :: 0 <= i < |ids| ==> Less(ids[i], id) && ids[i] != id
  {
    LessIrreflexive(id);
    forall i | 0 <= i < |ids|
      ensures Less(ids[i], id)
    {
      if i < |ids| - 1 {
        LessTransitive(ids[i], ids[|ids| - 1], id);
      }
    }
  }

  /** Storing under a new id leaves what is held under another id of the same length. */
  lemma HoldsElsewhere(dir: Directory, id: string, prevId: string, other: string, entry: Entry)
    requires |id| == |other| && id != other
    ensures Holds(dir[other + JSON := entry], id, prevId) == Holds(dir, id, prevId)
  {
    NameOrder(id, other);
  }

  lemma NamedOneMore(ids: seq<string>, id: string, n: string)
    requires Named(ids, n) || n == id + JSON
    ensures Named(ids + [id], n)
  {
    if n == id + JSON {
      assert (ids + [id])[|ids|] == id;
    } else {
      var i :| 0 <= i < |ids| && n == ids[i] + JSON;
      assert (ids + [id])[i] == ids[i];
    }
  }

  /** The links of a chain stay, and the new one is in its place. */
  lemma HoldsAfterOneMore(dir: Directory, ids: seq<string>, id: string, snap: Snapshot, i: nat)
    requires Chained(dir, ids) && Ascending(ids + [id]) && i <= |ids|
    requires snap.snapshotId == id && snap.prevSnapshotId == PrevAt(ids, |ids|)
    ensures HoldsAt(dir[id + JSON := Document(snap)], ids + [id], i)
  {
    var ids' := ids + [id];
    assert PrevAt(ids', i) == PrevAt(ids, i) && ids'[|ids|] == id;
    if i < |ids| {
      assert HoldsAt(dir, ids, i) && ids'[i] == ids[i];
      LessIrreflexive(id);
      assert Less(ids'[i], ids'[|ids|]);
      HoldsElsewhere(dir, ids[i], PrevAt(ids, i), id, Document(snap));
    }
  }

  lemma ChainedOneMore(sha: Sha, dir: Directory, ids: seq<string>, id: string, details: Snapshot)
    requires Chained(dir, ids) && |id| == 21 && (ids == [] || Less(ids[|ids| - 1], id))
    ensures Chained(AfterCapture(sha, dir, id, details), ids + [id])
  {
    var ids', dir' := ids + [id], AfterCapture(sha, dir, id, details);
    AscendingOneMore(ids, id);
    ChainedPrev(dir, ids);
    forall n | n in dir'
      ensures Named(ids', n)
    {
      NamedOneMore(ids, id, n);
    }
    forall i | 0 <= i < |ids'|
      ensures HoldsAt(dir', ids', i)
    {
      HoldsAfterOneMore(dir, ids, id, Captured(sha, id, details, PrevOf(dir)), i);
    }
  }

  /** A snapshot that points at an id not before its own is in no chain. */
  lemma BackwardLinkBreaks(dir: Directory, ids: seq<string>, id: string, prevId: string)
    requires Holds(dir, id, prevId) && |id| == 21 && prevId != "" && !Less(prevId, id)
    ensures !Chained(dir, ids)
  {
    if Ascending(ids) && Named(ids, id + JSON) {
      var i :| 0 <= i < |ids| && id + JSON == ids[i] + JSON;
      NameOrder(id, ids[i]);
      assert !HoldsAt(dir, ids, i);
    }
  }

  /** A capture extends the chain exactly when its id sorts after the latest's. Under
      the same id it overwrites the latest with a snapshot that points at itself; under
      an earlier one it points at a snapshot that comes after it. */
  lemma CaptureChainsIffLater(sha: Sha, dir: Directory, ids: seq<string>, id: string, details: Snapshot)
    requires Chained(dir, ids) && |id| == 21
    ensures IsChain(AfterCapture(sha, dir, id, details)) <==> (ids == [] || Less(ids[|ids| - 1], id))
  {
    var dir' := AfterCapture(sha, dir, id, details);
    if ids == [] || Less(ids[|ids| - 1], id) {
      ChainedOneMore(sha, dir, ids, id, details);
    } else {
      ChainedPrev(dir, ids);
      forall us: seq<string>
        ensures !Chained(dir', us)
      {
        BackwardLinkBreaks(dir', us, id, ids[|ids| - 1]);
      }
    }
  }

  function Ids(ts: seq<Time>): (ids: seq<string>)
    ensures |ids| == |ts|
    ensures forall i :: 0 <= i < |ts| ==> ids[i] == SnapshotId(ts[i])
  {
    if ts == [] then [] else Ids(ts[..|ts| - 1]) + [SnapshotId(ts[|ts| - 1])]
  }

  /** Each time is later than the one before. */
  ghost predicate Increasing(ts: seq<Time>) {
    forall i :: 0 < i < |ts| ==> Later(ts, i)
  }

  predicate Later(ts: seq<Time>, i: nat)
    requires 0 < i < |ts|
  {
    Before(ts[i - 1], ts[i])
  }

  /** One attempt to capture. */
  datatype Shot = Shot(t: Time, details: Snapshot, fault: WriteFault)

  /** The store after attempts to capture, starting from an empty directory. */
  ghost function Captures(sha: Sha, shots: seq<Shot>): Directory {
    if shots == [] then map[]
    else
      var n := |shots| - 1;
      AfterAttempt(sha, Captures(sha, shots[..n]), SnapshotId(shots[n].t), shots[n].details, shots[n].fault)
  }

  /** The attempts that stored anything. */
  function Written(shots: seq<Shot>): seq<Shot> {
    if shots == [] then []
    else
      var n := |shots| - 1;
      Written(shots[..n]) + if shots[n].fault.NotWritten? then [] else [shots[n]]
  }

  /** From the `k`-th on, each was whole and in a later second than the one before it; those
      before the `k`-th were all in its own second, and the last of them was spoilt. */
  ghost predicate StraightFrom(ws: seq<Shot>, k: nat) {
    && k < |ws|
    && (forall i :: 0 <= i < k ==> ws[i].t == ws[k].t)
    && (0 < k ==> ws[k - 1].fault.Spoilt?)
    && (forall i :: k <= i < |ws| ==> !ws[i].fault.Spoilt?)
    && (forall i :: k < i < |ws| ==> Ahead(ws, i))
  }

  predicate Ahead(ws: seq<Shot>, i: nat)
    requires 0 < i < |ws|
  {
    Before(ws[i - 1].t, ws[i].t)
  }

  function Times(ws: seq<Shot>): (ts: seq<Time>)
    ensures |ts| == |ws|
    ensures forall i :: 0 <= i < |ws| ==> ts[i] == ws[i].t
  {
    seq(|ws|, i requires 0 <= i < |ws| => ws[i].t)
  }

  /** Every entry is a snapshot under its own id, or spoilt. */
  ghost predicate WellNamed(dir: Directory) {
    forall n :: n in dir ==> OwnName(dir[n], n)
  }

  predicate OwnName(entry: Entry, n: string) {
    && |n| == 26 && IsJson(n) && !entry.Folder?
    && (entry.Document? ==> |entry.snapshot.snapshotId| == 21 && entry.snapshot.snapshotId + JSON == n)
  }

  predicate Stored(dir: Directory, id: string) { |id| == 21 && id + JSON in dir }

  /** What is stored under `id` cannot be linked to or points at itself or at one that
      comes after it. */
  predicate Wrong(dir: Directory, id: string)
    requires Stored(dir, id)
  {
    match dir[id + JSON]
    case Document(s) => s.prevSnapshotId != "" && !Less(s.prevSnapshotId, id)
    case _ => true
  }

  predicate IsRoot(dir: Directory, id: string)
    requires Stored(dir, id)
  {
    dir[id + JSON].Document? && dir[id + JSON].snapshot.prevSnapshotId == ""
  }

  /** Something is wrong under `x` though `y` is stored too, or `x` starts a chain though
      `y` comes before it. */
  predicate Flaw(dir: Directory, x: string, y: string) {
    Stored(dir, x) && Stored(dir, y) && x != y && (Wrong(dir, x) || (IsRoot(dir, x) && Less(y, x)))
  }

  ghost predicate Tangled(dir: Directory) {
    exists x, y :: Flaw(dir, x, y)
  }

  /** Where something is stored, a capture points at nothing, past a spoilt latest, or at a
      snapshot that is not before it. */
  lemma PrevIsLast(dir: Directory, id: string) returns (last: string)
    requires WellNamed(dir) && Stored(dir, id)
    ensures Stored(dir, last) && (last == id || Less(id, last)) && !Less(last, id)
    ensures forall y :: Stored(dir, y) ==> y == last || Less(y, last)
    ensures PrevOf(dir) == if dir[last + JSON].Document? then last else ""
  {
    var name := id + JSON;
    assert OwnName(dir[name], name);
    var top := GreatestExists(dir, name);
    LatestIs(dir, top);
    assert OwnName(dir[top], top);
    last := top[..21];
    assert top == last + JSON;
    forall y | Stored(dir, y)
      ensures y == last || Less(y, last)
    {
      assert OwnName(dir[y + JSON], y + JSON);
      assert Listed(dir, y + JSON);
      NameOrder(y, last);
    }
    if Less(last, id) {
      LessIrreflexive(id);
      LessTransitive(last, id, last);
    }
    if dir[top].Document? {
      NameOrder(dir[top].snapshot.snapshotId, last);
    }
    LessIrreflexive(last);
  }

  lemma AttemptWellNamed(sha: Sha, dir: Directory, t: Time, details: Snapshot, fault: WriteFault)
    requires WellNamed(dir)
    ensures WellNamed(AfterAttempt(sha, dir, SnapshotId(t), details, fault))
  {
    var name := SnapshotId(t) + JSON;
    assert name[|name| - |JSON|..] == JSON;
  }

  /** What is stored under other ids stays. */
  lemma StoredElsewhere(dir: Directory, id: string, other: string, entry: Entry)
    requires |id| == |other|
    ensures Stored(dir, other) ==> Stored(dir[id + JSON := entry], other)
    ensures other != id && Stored(dir, other) ==> dir[id + JSON := entry][other + JSON] == dir[other + JSON]
  {
    NameOrder(id, other);
  }

  /** No later attempt repairs a tangled store. */
  lemma TangledStays(sha: Sha, dir: Directory, id: string, details: Snapshot, fault: WriteFault)
    requires WellNamed(dir) && Tangled(dir) && |id| == 21
    ensures Tangled(AfterAttempt(sha, dir, id, details, fault))
  {
    var x, y :| Flaw(dir, x, y);
    var dir' := AfterAttempt(sha, dir, id, details, fault);
    if dir' != dir {
      var entry := dir'[id + JSON];
      StoredElsewhere(dir, id, x, entry);
      StoredElsewhere(dir, id, y, entry);
      if id != x || fault.Spoilt? {
        assert Flaw(dir', x, y);
      } else {
        var last := PrevIsLast(dir, x);
        LessTotal(x, y);
        if dir[last + JSON].Document? || Less(y, x) {
          assert Flaw(dir', x, y);
        } else {
          AfterAnother(x, y, last);
          StoredElsewhere(dir, id, last, entry);
          assert OwnName(dir[last + JSON], last + JSON);
          assert Flaw(dir', last, x);
        }
      }
    }
  }

  lemma AfterAnother(x: string, y: string, last: string)
    requires Less(x, y) && (y == last || Less(y, last))
    ensures x != last
  {
    LessIrreflexive(x);
    if y != last && x == last {
      LessTransitive(x, y, last);
    }
  }

  lemma TangledBreaks(dir: Directory)
    requires Tangled(dir)
    ensures !IsChain(dir)
  {
    var x, y :| Flaw(dir, x, y);
    forall ids: seq<string>
      ensures !Chained(dir, ids)
    {
      if Chained(dir, ids) {
        var i := PlaceOf(dir, ids, x);
        var j := PlaceOf(dir, ids, y);
        LessIrreflexive(x);
        if i == 0 && Less(y, x) {
          LessTransitive(x, y, x);
        }
        assert false;
      }
    }
  }

  /** In a chain, what is stored under `id` is in its place. */
  lemma PlaceOf(dir: Directory, ids: seq<string>, id: string) returns (i: nat)
    requires Chained(dir, ids) && Stored(dir, id)
    ensures i < |ids| && ids[i] == id && Holds(dir, id, PrevAt(ids, i))
    ensures !Wrong(dir, id)
    ensures IsRoot(dir, id) <==> i == 0
  {
    assert Named(ids, id + JSON);
    i :| 0 <= i < |ids| && id + JSON == ids[i] + JSON;
    NameOrder(id, ids[i]);
    assert HoldsAt(dir, ids, i);
    if 0 < i {
      assert Less(ids[i - 1], ids[i]);
    }
  }

  /** One entry, which is spoilt or points at itself. */
  ghost predicate Alone(dir: Directory, id: string, spoilt: bool) {
    && |id| == 21 && id + JSON in dir && dir == map[id + JSON := dir[id + JSON]]
    && match dir[id + JSON]
       case Unparsable => spoilt
       case Document(s) => !spoilt && s.snapshotId == id && s.prevSnapshotId == id
       case Folder => false
  }

  lemma AloneBreaks(dir: Directory, id: string, spoilt: bool)
    requires Alone(dir, id, spoilt)
    ensures !IsChain(dir)
  {
    LessIrreflexive(id);
    forall ids: seq<string>
      ensures !Chained(dir, ids)
    {
      if Chained(dir, ids) {
        var _ := PlaceOf(dir, ids, id);
        assert false;
      }
    }
  }

  /** In another second than the only stored one, which is wrong. */
  lemma AloneThenOther(dir: Directory, id: string, spoilt: bool, other: string, entry: Entry)
    requires Alone(dir, id, spoilt) && |other| == 21 && other != id
    ensures Tangled(dir[other + JSON := entry])
  {
    LessIrreflexive(id);
    StoredElsewhere(dir, other, id, entry);
    assert Flaw(dir[other + JSON := entry], id, other);
  }

  /** In the same second: a spoilt snapshot is captured anew, one that points at itself is
      replaced by another. */
  lemma AloneThenSame(sha: Sha, dir: Directory, id: string, spoilt: bool, details: Snapshot)
    requires WellNamed(dir) && Alone(dir, id, spoilt)
    ensures
      var dir' := AfterCapture(sha, dir, id, details);
      if spoilt then Chained(dir', [id]) else Alone(dir', id, false)
  {
    var dir' := AfterCapture(sha, dir, id, details);
    var last := PrevIsLast(dir, id);
    NameOrder(last, id);
    assert forall n :: n in dir' ==> n == id + JSON;
    if spoilt {
      assert Named([id], id + JSON) by {
        assert [id][0] == id;
      }
      assert HoldsAt(dir', [id], 0);
    } else {
      assert dir' == map[id + JSON := dir'[id + JSON]];
    }
  }

  /** In a chain of anything but `id` alone, another id. */
  lemma OtherPlace(dir: Directory, ids: seq<string>, id: string) returns (i: nat)
    requires Chained(dir, ids) && ids != [] && ids != [id]
    ensures i < |ids| && ids[i] != id && Stored(dir, ids[i])
  {
    i := if ids[0] != id then 0 else 1;
    if ids[0] == id {
      assert |ids| != 1 by {
        assert |ids| == 1 ==> ids == [id];
      }
      assert Less(ids[0], ids[1]);
      LessIrreflexive(id);
    }
    assert HoldsAt(dir, ids, i);
  }

  /** Spoiling, or capturing in no later second, next to another snapshot of the chain. */
  lemma ChainedThenFlaw(dir: Directory, ids: seq<string>, id: string, entry: Entry)
    requires Chained(dir, ids) && |id| == 21 && ids != [] && ids != [id]
    requires Wrong(dir[id + JSON := entry], id)
    ensures Tangled(dir[id + JSON := entry])
  {
    var i := OtherPlace(dir, ids, id);
    StoredElsewhere(dir, id, ids[i], entry);
    assert Flaw(dir[id + JSON := entry], id, ids[i]);
  }

  lemma ChainedThenAlone(dir: Directory, id: string, entry: Entry)
    requires Chained(dir, []) || Chained(dir, [id])
    ensures dir[id + JSON := entry] == map[id + JSON := entry]
  {
    forall n | n in dir
      ensures n == id + JSON
    {
      assert Named([], n) || Named([id], n);
    }
  }

  /** What attempts can leave: a chain of these seconds, one entry that is no chain, or a
      tangle. */
  datatype Shape = Chain(ts: seq<Time>) | One(t: Time, spoilt: bool) | Tangle

  function NextShape(shape: Shape, c: Shot): Shape {
    var spoilt := c.fault.Spoilt?;
    match shape
    case Chain(ts) =>
      if !spoilt && (ts == [] || Before(ts[|ts| - 1], c.t)) then Chain(ts + [c.t])
      else if ts == [] || ts == [c.t] then One(c.t, spoilt)
      else Tangle
    case One(t, wasSpoilt) =>
      if c.t != t then Tangle else if wasSpoilt && !spoilt then Chain([t]) else One(t, spoilt)
    case Tangle => Tangle
  }

  function ShapeOf(ws: seq<Shot>): Shape {
    if ws == [] then Chain([]) else NextShape(ShapeOf(ws[..|ws| - 1]), ws[|ws| - 1])
  }

  ghost predicate Fits(dir: Directory, shape: Shape) {
    match shape
    case Chain(ts) => Chained(dir, Ids(ts))
    case One(t, spoilt) => Alone(dir, SnapshotId(t), spoilt)
    case Tangle => Tangled(dir)
  }

  lemma IdsOf(ts: seq<Time>, t: Time)
    ensures Ids(ts + [t]) == Ids(ts) + [SnapshotId(t)]
    ensures Ids(ts) == [SnapshotId(t)] <==> ts == [t]
  {
    assert (ts + [t])[..|ts|] == ts;
    if |ts| == 1 {
      IdOrder(ts[0], t);
      assert Ids(ts) == [SnapshotId(ts[0])] && ts == [ts[0]];
    }
  }

  /** What an attempt leaves of a chain. */
  lemma AttemptAfterChain(sha: Sha, dir: Directory, ids: seq<string>, id: string, details: Snapshot, fault: WriteFault)
    requires WellNamed(dir) && Chained(dir, ids) && |id| == 21 && !fault.NotWritten?
    ensures
      var dir' := AfterAttempt(sha, dir, id, details, fault);
      if !fault.Spoilt? && (ids == [] || Less(ids[|ids| - 1], id)) then Chained(dir', ids + [id])
      else if ids == [] || ids == [id] then Alone(dir', id, fault.Spoilt?)
      else Tangled(dir')
  {
    var dir' := AfterAttempt(sha, dir, id, details, fault);
    assert id + JSON in dir ==> OwnName(dir[id + JSON], id + JSON);
    var entry := dir'[id + JSON];
    ChainedPrev(dir, ids);
    if !fault.Spoilt? && (ids == [] || Less(ids[|ids| - 1], id)) {
      ChainedOneMore(sha, dir, ids, id, details);
    } else if ids == [] || ids == [id] {
      ChainedThenAlone(dir, id, entry);
    } else {
      ChainedThenFlaw(dir, ids, id, entry);
    }
  }

  /** What an attempt leaves of one entry that is no chain. */
  lemma AttemptAfterAlone(sha: Sha, dir: Directory, id: string, spoilt: bool, other: string, details: Snapshot,
                          fault: WriteFault)
    requires WellNamed(dir) && Alone(dir, id, spoilt) && |other| == 21 && !fault.NotWritten?
    ensures
      var dir' := AfterAttempt(sha, dir, other, details, fault);
      if other != id then Tangled(dir')
      else if spoilt && !fault.Spoilt? then Chained(dir', [id])
      else Alone(dir', id, fault.Spoilt?)
  {
    var dir' := AfterAttempt(sha, dir, other, details, fault);
    assert other + JSON in dir ==> OwnName(dir[other + JSON], other + JSON);
    if other != id {
      AloneThenOther(dir, id, spoilt, other, dir'[other + JSON]);
    } else if fault.Spoilt? {
      assert dir' == map[id + JSON := dir'[id + JSON]];
    } else {
      AloneThenSame(sha, dir, id, spoilt, details);
    }
  }

  lemma ChainFits(sha: Sha, dir: Directory, ts: seq<Time>, ids: seq<string>, c: Shot)
    requires WellNamed(dir) && ids == Ids(ts) && Chained(dir, ids) && !c.fault.NotWritten?
    ensures Fits(AfterAttempt(sha, dir, SnapshotId(c.t), c.details, c.fault), NextShape(Chain(ts), c))
  {
    var id := SnapshotId(c.t);
    AttemptAfterChain(sha, dir, ids, id, c.details, c.fault);
    IdsOf(ts, c.t);
    assert ts == [] <==> ids == [];
    if ts != [] {
      assert ids[|ids| - 1] == SnapshotId(ts[|ts| - 1]);
      IdOrder(ts[|ts| - 1], c.t);
    }
  }

  lemma OneFits(sha: Sha, dir: Directory, t: Time, spoilt: bool, c: Shot)
    requires WellNamed(dir) && Alone(dir, SnapshotId(t), spoilt) && !c.fault.NotWritten?
    ensures Fits(AfterAttempt(sha, dir, SnapshotId(c.t), c.details, c.fault), NextShape(One(t, spoilt), c))
  {
    IdOrder(c.t, t);
    IdsOfOne(t);
    AttemptAfterAlone(sha, dir, SnapshotId(t), spoilt, SnapshotId(c.t), c.details, c.fault);
  }

  lemma IdsOfOne(t: Time)
    ensures Ids([t]) == [SnapshotId(t)]
  {
    assert [t][..0] == [];
  }

  /** One attempt takes the store from shape to shape. */
  lemma AttemptFits(sha: Sha, dir: Directory, shape: Shape, c: Shot)
    requires WellNamed(dir) && Fits(dir, shape) && !c.fault.NotWritten?
    ensures Fits(AfterAttempt(sha, dir, SnapshotId(c.t), c.details, c.fault), NextShape(shape, c))
  {
    match shape
    case Chain(ts) =>
      ChainFits(sha, dir, ts, Ids(ts), c);
    case One(t, spoilt) =>
      OneFits(sha, dir, t, spoilt, c);
    case Tangle =>
      TangledStays(sha, dir, SnapshotId(c.t), c.details, c.fault);
  }

  lemma WrittenLast(shots: seq<Shot>)
    requires shots != []
    ensures
      var n := |shots| - 1;
      ShapeOf(Written(shots)) ==
        if shots[n].fault.NotWritten? then ShapeOf(Written(shots[..n]))
        else NextShape(ShapeOf(Written(shots[..n])), shots[n])
  {
    var ws, ws' := Written(shots[..|shots| - 1]), Written(shots);
    if shots[|shots| - 1].fault.NotWritten? {
      assert ws' == ws;
    } else {
      assert ws'[..|ws|] == ws;
    }
  }

  lemma {:induction false} CapturesLeave(sha: Sha, shots: seq<Shot>)
    ensures WellNamed(Captures(sha, shots)) && Fits(Captures(sha, shots), ShapeOf(Written(shots)))
  {
    if shots != [] {
      var before, c := shots[..|shots| - 1], shots[|shots| - 1];
      CapturesLeave(sha, before);
      WrittenLast(shots);
      AttemptWellNamed(sha, Captures(sha, before), c.t, c.details, c.fault);
      if !c.fault.NotWritten? {
        AttemptFits(sha, Captures(sha, before), ShapeOf(Written(before)), c);
      }
    }
  }

  /** Only the chain has the shape of a chain. */
  lemma ChainShape(dir: Directory, shape: Shape)
    requires Fits(dir, shape)
    ensures IsChain(dir) <==> shape.Chain?
  {
    match shape
    case Chain(_) =>
    case One(t, spoilt) => AloneBreaks(dir, SnapshotId(t), spoilt);
    case Tangle => TangledBreaks(dir);
  }

  ghost predicate Straight(ws: seq<Shot>, ts: seq<Time>) {
    exists k: nat :: StraightFrom(ws, k) && ts == Times(ws[k..])
  }

  lemma StraightOneMore(ws: seq<Shot>, k: nat)
    requires ws != [] && StraightFrom(ws[..|ws| - 1], k)
    requires !ws[|ws| - 1].fault.Spoilt? && Ahead(ws, |ws| - 1)
    ensures StraightFrom(ws, k) && Times(ws[k..]) == Times(ws[..|ws| - 1][k..]) + [ws[|ws| - 1].t]
  {
    var init := ws[..|ws| - 1];
    assert forall i :: 0 <= i < |init| ==> init[i] == ws[i];
    forall i | k < i < |ws|
      ensures Ahead(ws, i)
    {
      assert i < |init| ==> Ahead(init, i);
    }
  }

  ghost predicate InSecond(ws: seq<Shot>, t: Time) {
    forall i :: 0 <= i < |ws| ==> ws[i].t == t
  }

  /** What the shape says of the attempts. */
  ghost predicate Means(ws: seq<Shot>, shape: Shape) {
    match shape
    case Chain(ts) => if ws == [] then ts == [] else Straight(ws, ts)
    case One(t, spoilt) => ws != [] && InSecond(ws, t) && spoilt == ws[|ws| - 1].fault.Spoilt?
    case Tangle => true
  }

  lemma MeansAfterChain(ws: seq<Shot>, ts: seq<Time>, k: nat)
    requires |ws| > 1 && StraightFrom(ws[..|ws| - 1], k) && ts == Times(ws[..|ws| - 1][k..])
    ensures Means(ws, NextShape(Chain(ts), ws[|ws| - 1]))
  {
    var n := |ws| - 1;
    assert ts[|ts| - 1] == ws[n - 1].t && ts[0] == ws[k].t;
    if NextShape(Chain(ts), ws[n]).Chain? {
      StraightOneMore(ws, k);
    } else if ts == [ws[n].t] {
      assert k == n - 1;
    }
  }

  lemma MeansAfterOne(ws: seq<Shot>, t: Time, spoilt: bool)
    requires ws != [] && Means(ws[..|ws| - 1], One(t, spoilt))
    ensures Means(ws, NextShape(One(t, spoilt), ws[|ws| - 1]))
  {
    var n := |ws| - 1;
    assert forall i :: 0 <= i < n ==> ws[..n][i] == ws[i];
    if ws[n].t == t && spoilt && !ws[n].fault.Spoilt? {
      assert StraightFrom(ws, n) && Times(ws[n..]) == [t];
    }
  }

  lemma {:induction false} ShapeMeans(ws: seq<Shot>)
    ensures Means(ws, ShapeOf(ws))
  {
    if |ws| == 1 {
      assert ShapeOf(ws[..0]) == Chain([]);
      assert [] + [ws[0].t] == [ws[0].t] == Times(ws[0..]);
      if !ws[0].fault.Spoilt? {
        assert StraightFrom(ws, 0);
      }
    } else if ws != [] {
      var init := ws[..|ws| - 1];
      ShapeMeans(init);
      match ShapeOf(init)
      case Chain(ts) =>
        var k: nat :| StraightFrom(init, k) && ts == Times(init[k..]);
        MeansAfterChain(ws, ts, k);
      case One(t, spoilt) => MeansAfterOne(ws, t, spoilt);
      case Tangle =>
    }
  }

  lemma {:induction false} OneSecond(ws: seq<Shot>, t: Time)
    requires InSecond(ws, t)
    ensures ShapeOf(ws).One? || ShapeOf(ws) == Chain([]) || ShapeOf(ws) == Chain([t])
    ensures ShapeOf(ws).One? ==> ShapeOf(ws).t == t
    ensures ws != [] && ws[|ws| - 1].fault.Spoilt? ==> ShapeOf(ws) == One(t, true)
  {
    if ws != [] {
      OneSecond(ws[..|ws| - 1], t);
      BeforeIsTotal(t, t);
      assert [] + [t] == [t];
    }
  }

  lemma StraightStart(ws: seq<Shot>)
    requires ws != [] && StraightFrom(ws, |ws| - 1)
    ensures ShapeOf(ws) == Chain([ws[|ws| - 1].t])
  {
    var n := |ws| - 1;
    OneSecond(ws[..n], ws[n].t);
    assert [] + [ws[n].t] == [ws[n].t];
  }

  lemma StraightBefore(ws: seq<Shot>, k: nat)
    requires StraightFrom(ws, k) && k < |ws| - 1
    ensures StraightFrom(ws[..|ws| - 1], k)
  {
    var init := ws[..|ws| - 1];
    forall i | k < i < |init|
      ensures Ahead(init, i)
    {
      assert Ahead(ws, i);
    }
  }

  lemma {:induction false} StraightNext(ws: seq<Shot>, ts: seq<Time>, last: Time)
    requires ws != [] && !ws[|ws| - 1].fault.Spoilt? && Before(last, ws[|ws| - 1].t)
    requires ts != [] && ts[|ts| - 1] == last && ShapeOf(ws[..|ws| - 1]) == Chain(ts)
    ensures ShapeOf(ws) == Chain(ts + [ws[|ws| - 1].t])
  {
  }

  lemma {:induction false} StraightShape(ws: seq<Shot>, k: nat)
    requires StraightFrom(ws, k)
    ensures ShapeOf(ws) == Chain(Times(ws[k..]))
    decreases |ws|
  {
    var n := |ws| - 1;
    if k == n {
      StraightStart(ws);
      TimesLast(ws, k);
      assert Times(ws[..n][k..]) == [];
    } else {
      StraightBefore(ws, k);
      StraightShape(ws[..n], k);
      assert Ahead(ws, n);
      StraightNext(ws, Times(ws[..n][k..]), ws[n - 1].t);
      TimesLast(ws, k);
    }
  }

  lemma TimesLast(ws: seq<Shot>, k: nat)
    requires k < |ws|
    ensures Times(ws[k..]) == Times(ws[..|ws| - 1][k..]) + [ws[|ws| - 1].t]
  {
  }

  ghost predicate IsStraight(ws: seq<Shot>) {
    ws == [] || exists k: nat :: StraightFrom(ws, k)
  }

  lemma ShapeIffStraight(ws: seq<Shot>)
    ensures ShapeOf(ws).Chain? <==> IsStraight(ws)
  {
    ShapeMeans(ws);
    if ws != [] && IsStraight(ws) {
      var k: nat :| StraightFrom(ws, k);
      StraightShape(ws, k);
    }
  }

  /** Over every run of captures, failing ones included, the store is a chain if and only
      if all that stored anything were whole and in ever later seconds, but for those before
      a spoilt one at the start that was captured anew, all in one second. */
  lemma CapturesChainIffStraight(sha: Sha, shots: seq<Shot>)
    ensures IsChain(Captures(sha, shots)) <==> IsStraight(Written(shots))
  {
    CapturesLeave(sha, shots);
    ChainShape(Captures(sha, shots), ShapeOf(Written(shots)));
    ShapeIffStraight(Written(shots));
  }

  ghost predicate NoneSpoilt(shots: seq<Shot>) {
    forall i :: 0 <= i < |shots| ==> !shots[i].fault.Spoilt?
  }

  lemma {:induction false} WrittenAmong(shots: seq<Shot>)
    ensures forall c :: c in Written(shots) ==> c in shots && !c.fault.NotWritten?
  {
    if shots != [] {
      WrittenAmong(shots[..|shots| - 1]);
    }
  }

  lemma StraightWithoutSpoilt(ws: seq<Shot>)
    requires NoneSpoilt(ws)
    ensures IsStraight(ws) <==> Increasing(Times(ws))
    ensures Increasing(Times(ws)) ==> ShapeOf(ws) == Chain(Times(ws))
  {
    assert forall i :: 0 < i < |ws| ==> Later(Times(ws), i) == Ahead(ws, i);
    if ws != [] && Increasing(Times(ws)) {
      assert StraightFrom(ws, 0);
      StraightShape(ws, 0);
      assert ws[0..] == ws;
    }
  }

  /** So, where no file was spoilt, the store is a chain if and only if each capture that
      stored its file was in a later second than the one before. */
  lemma CapturesChainIffIncreasing(sha: Sha, shots: seq<Shot>)
    requires NoneSpoilt(shots)
    ensures IsChain(Captures(sha, shots)) <==> Increasing(Times(Written(shots)))
    ensures Increasing(Times(Written(shots))) ==> Chained(Captures(sha, shots), Ids(Times(Written(shots))))
  {
    var ws := Written(shots);
    WrittenAmong(shots);
    assert forall i :: 0 <= i < |ws| ==> ws[i] in ws;
    StraightWithoutSpoilt(ws);
    CapturesChainIffStraight(sha, shots);
    CapturesLeave(sha, shots);
  }

  /** An attempt that stored something is among those that did, behind those before it. */
  lemma {:induction false} WrittenAt(shots: seq<Shot>, i: nat)
    requires i < |shots| && !shots[i].fault.NotWritten?
    ensures
      var a := |Written(shots[..i])|;
      a < |Written(shots)| && Written(shots)[a] == shots[i]
    decreases |shots|
  {
    var before := shots[..|shots| - 1];
    if i < |before| {
      assert before[..i] == shots[..i];
      WrittenAt(before, i);
    }
  }

  lemma WrittenInOrder(shots: seq<Shot>, i: nat, j: nat)
    requires i < j < |shots| && !shots[i].fault.NotWritten?
    ensures |Written(shots[..i])| < |Written(shots[..j])|
  {
    assert shots[..j][..i] == shots[..i];
    WrittenAt(shots[..j], i);
  }

  lemma SpoiltNotStraight(ws: seq<Shot>, a: nat, b: nat)
    requires a < b < |ws| && ws[b].fault.Spoilt? && ws[a].t != ws[b].t
    ensures !IsStraight(ws)
  {
    forall k: nat
      ensures !StraightFrom(ws, k)
    {
      if b < k < |ws| {
        assert !(ws[a].t == ws[k].t && ws[b].t == ws[k].t);
      }
    }
  }

  /** A spoilt snapshot beside one of another second breaks the chain for good, whatever is
      captured later. */
  lemma SpoiltForGood(sha: Sha, shots: seq<Shot>, i: nat, j: nat)
    requires i < j < |shots| && shots[j].fault.Spoilt? && !shots[i].fault.NotWritten? && shots[i].t != shots[j].t
    ensures !IsChain(Captures(sha, shots))
  {
    WrittenAt(shots, i);
    WrittenAt(shots, j);
    WrittenInOrder(shots, i, j);
    SpoiltNotStraight(Written(shots), |Written(shots[..i])|, |Written(shots[..j])|);
    CapturesChainIffStraight(sha, shots);
  }

  /** Follows PrevSnapshotID from a snapshot to the empty id. */
  method Follow(dir: Directory, start: string, ghost ids: seq<string>) returns (visited: seq<string>)
    requires Chained(dir, ids) && start == PrevAt(ids, |ids|)
    ensures |visited| == |ids|
    ensures forall i :: 0 <= i < |ids| ==> visited[i] == ids[|ids| - 1 - i]
  {
    visited := [];
    var id := start;
    ghost var left: nat := |ids|;
    while id != ""
      invariant left <= |ids| && |visited| == |ids| - left && id == PrevAt(ids, left)
      invariant forall i :: 0 <= i < |visited| ==> visited[i] == ids[|ids| - 1 - i]
      decreases left
    {
      assert HoldsAt(dir, ids, left - 1);
      visited := visited + [id];
      var r := Get(dir, id);
      id := if r.Found? then r.snapshot.prevSnapshotId else "";
      left := left - 1;
    }
  }

  /** Following PrevSnapshotID from Latest visits every stored snapshot once, newest
      first, and ends at the empty id. */
  method FollowChain(store: SnapshotStore, ghost ids: seq<string>) returns (visited: seq<string>)
    requires Chained(store.dir, ids)
    ensures |visited| == |ids|
    ensures forall i :: 0 <= i < |ids| ==> visited[i] == ids[|ids| - 1 - i]
  {
    ChainedPrev(store.dir, ids);
    var latest := store.Latest();
    visited := Follow(store.dir, if latest.Found? then latest.snapshot.snapshotId else "", ids);
  }

  /** Attempts to capture, into a new store. */
  method CaptureAll(sha: Sha, shots: seq<Shot>) returns (store: SnapshotStore)
    ensures fresh(store) && store.dir == Captures(sha, shots)
  {
    store := new SnapshotStore();
    for n := 0 to |shots|
      invariant fresh(store) && store.dir == Captures(sha, shots[..n])
    {
      assert shots[..n + 1][..n] == shots[..n];
      var _, _ := store.Capture(sha, SnapshotId(shots[n].t), shots[n].details, shots[n].fault);
    }
    assert shots[..|shots|] == shots;
  }

  /** Captures, then the walk back from Latest. Whatever attempts stored nothing, and where
      the others were whole and in ever later seconds: each of them once, newest first. */
  method CaptureAndFollow(sha: Sha, shots: seq<Shot>) returns (visited: seq<string>)
    requires NoneSpoilt(shots) && Increasing(Times(Written(shots)))
    ensures
      var ws := Written(shots);
      |visited| == |ws| && forall i :: 0 <= i < |ws| ==> visited[i] == SnapshotId(ws[|ws| - 1 - i].t)
  {
    var store := CaptureAll(sha, shots);
    CapturesChainIffIncreasing(sha, shots);
    visited := FollowChain(store, Ids(Times(Written(shots))));
  }
}
