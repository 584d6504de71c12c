/** Strings as the hash input is built from them: decimal numbers and
    newline-joined fields. */
module Text {

  const LF := '\n'

  predicate OneLine(s: string) { LF !in s }

  /* ---- Decimal numbers, as %d writes them ---- */

  function DigitChar(d: nat): (c: char)
    requires d < 10
  {
    '0' + d as char
  }

  function Digits(n: nat): (s: string)
    ensures s != []
    ensures forall i :: 0 <= i < |s| ==> '0' <= s[i] <= '9'
  {
    if n < 10 then [DigitChar(n)] else Digits(n / 10) + [DigitChar(n % 10)]
  }

  function Decimal(n: int): (s: string)
    ensures OneLine(s)
  {
    if n < 0 then "-" + Digits(-n) else Digits(n)
  }

  function Value(s: string): (n: nat)
    requires forall i :: 0 <= i < |s| ==> '0' <= s[i] <= '9'
  {
    if s == [] then 0 else 10 * Value(s[..|s| - 1]) + (s[|s| - 1] - '0') as nat
  }

  lemma {:induction false} ValueOfDigits(n: nat)
    ensures Value(Digits(n)) == n
  {
    var s := Digits(n);
    if n < 10 {
      assert s[..0] == [];
    } else {
      ValueOfDigits(n / 10);
      assert s[..|s| - 1] == Digits(n / 10);
    }
  }

  lemma DecimalSign(n: int)
    ensures Decimal(n) != [] && (Decimal(n)[0] == '-' <==> n < 0)
    ensures n < 0 ==> Decimal(n)[1..] == Digits(-n)
  {
  }

  lemma DecimalInjective(m: int, n: int)
    requires Decimal(m) == Decimal(n)
    ensures m == n
  {
    DecimalSign(m);
    DecimalSign(n);
    ValueOfDigits(if m < 0 then -m else m);
    ValueOfDigits(if n < 0 then -n else n);
  }

  /* ---- Fields joined by newlines ---- */

  function Join(fs: seq<string>): (s: string)
    requires fs != []
  {
    if |fs| == 1 then fs[0] else fs[0] + [LF] + Join(fs[1..])
  }

  function FirstBreak(s: string): (i: nat)
    requires !OneLine(s)
    ensures i < |s| && s[i] == LF && OneLine(s[..i])
  {
    if s[0] == LF then 0
    else
      assert LF in s[1..];
      var i := FirstBreak(s[1..]);
      assert s[..i + 1] == [s[0]] + s[1..][..i];
      i + 1
  }

  function LastBreak(s: string): (i: nat)
    requires !OneLine(s)
    ensures i < |s| && s[i] == LF && OneLine(s[i + 1..])
  {
    var n := |s| - 1;
    if s[n] == LF then n
    else
      assert LF in s[..n];
      var i := LastBreak(s[..n]);
      assert s[i + 1..] == s[..n][i + 1..] + [s[n]];
      i
  }

  lemma {:induction false} FirstBreakAt(a: string, x: string)
    requires OneLine(a)
    ensures LF in a + [LF] + x && FirstBreak(a + [LF] + x) == |a|
  {
    var s := a + [LF] + x;
    assert s[|a|] == LF;
    if a != [] {
      assert s[1..] == a[1..] + [LF] + x;
      assert s[0] == a[0] != LF;
      FirstBreakAt(a[1..], x);
    }
  }

  lemma {:induction false} LastBreakAt(a: string, x: string)
    requires OneLine(x)
    ensures LF in a + [LF] + x && LastBreak(a + [LF] + x) == |a|
  {
    var s := a + [LF] + x;
    assert s[|a|] == LF;
    if x != [] {
      var n := |x| - 1;
      assert s[..|s| - 1] == a + [LF] + x[..n];
      assert s[|s| - 1] == x[n] != LF;
      LastBreakAt(a, x[..n]);
    }
  }

  lemma CutAt(a: string, x: string)
    ensures (a + [LF] + x)[..|a|] == a && (a + [LF] + x)[|a| + 1..] == x
  {
  }

  /** A one-line head is pinned by the first newline. */
  lemma HeadPinned(a: string, x: string, b: string, y: string)
    requires OneLine(a) && OneLine(b) && a + [LF] + x == b + [LF] + y
    ensures a == b && x == y
  {
    FirstBreakAt(a, x);
    FirstBreakAt(b, y);
    CutAt(a, x);
    CutAt(b, y);
  }

  /** A one-line tail is pinned by the last newline. */
  lemma TailPinned(a: string, x: string, b: string, y: string)
    requires OneLine(x) && OneLine(y) && a + [LF] + x == b + [LF] + y
    ensures a == b && x == y
  {
    LastBreakAt(a, x);
    LastBreakAt(b, y);
    CutAt(a, x);
    CutAt(b, y);
  }

  lemma JoinBreaks(fs: seq<string>)
    requires fs != []
    ensures OneLine(Join(fs)) ==> |fs| == 1
  {
  }

  lemma {:induction false} JoinLast(fs: seq<string>)
    requires |fs| >= 2
    ensures Join(fs) == Join(fs[..|fs| - 1]) + [LF] + fs[|fs| - 1]
  {
    var n := |fs| - 1;
    if n > 1 {
      JoinLast(fs[1..]);
      assert fs[1..][..n - 1] == fs[..n][1..];
      Reassociated(fs[0], Join(fs[..n][1..]), fs[n]);
    }
  }

  lemma Reassociated(x: string, y: string, z: string)
    ensures x + [LF] + (y + [LF] + z) == (x + [LF] + y) + [LF] + z
  {
  }

  /** One-line fields can be told apart again: no other list of at least as many
      fields, of any content, joins to the same text. */
  lemma {:induction false} JoinUnique(fs: seq<string>, gs: seq<string>)
    requires fs != [] && |fs| <= |gs| && Join(fs) == Join(gs)
    requires forall i :: 0 <= i < |fs| ==> OneLine(fs[i])
    ensures fs == gs
    decreases |fs|
  {
    if |fs| == 1 {
      JoinBreaks(gs);
    } else if OneLine(gs[0]) {
      HeadPinned(fs[0], Join(fs[1..]), gs[0], Join(gs[1..]));
      JoinUnique(fs[1..], gs[1..]);
      assert fs == [fs[0]] + fs[1..] && gs == [gs[0]] + gs[1..];
    } else {
      var i := FirstBreak(gs[0]);
      var x, y := gs[0][..i], gs[0][i + 1..];
      assert gs[0] == x + [LF] + y;
      var gs' := [y] + gs[1..];
      assert gs'[1..] == gs[1..];
      assert Join(gs) == x + [LF] + Join(gs');
      HeadPinned(fs[0], Join(fs[1..]), x, Join(gs'));
      JoinUnique(fs[1..], gs');
    }
  }

  /** Moving text across one separator does not change the joined text. */
  lemma {:induction false} JoinShift(fs: seq<string>, i: nat, a: string, b: string)
    requires i + 1 < |fs| && a + [LF] + b == fs[i] + [LF] + fs[i + 1]
    ensures Join(fs[i := a][i + 1 := b]) == Join(fs)
  {
    var gs := fs[i := a][i + 1 := b];
    if i == 0 {
      assert gs[2..] == fs[2..];
      if |fs| > 2 {
        assert gs[1..][1..] == gs[2..] && fs[1..][1..] == fs[2..];
        assert Join(gs) == (a + [LF] + b) + [LF] + Join(gs[2..]);
        assert Join(fs) == (fs[0] + [LF] + fs[1]) + [LF] + Join(fs[2..]);
      }
    } else {
      assert gs[1..] == fs[1..][i - 1 := a][i := b];
      JoinShift(fs[1..], i - 1, a, b);
    }
  }
}
