/** Compact JSON, as far as the ends of its texts go: no text of an object ends with the
    text of another. */
module JsonTexts {

  /** A character of a quoted text, as it is or behind a backslash. */
  datatype PieceRaw = Plain(c: char) | Escape(c: char)
  type Piece = p: PieceRaw | p.Plain? ==> p.c != '"' && p.c != '\\' witness Plain('a')

  predicate IsMark(c: char) { c == '"' || c == '\\' || c == '{' || c == '}' || c == '[' || c == ']' }

  /** Numbers, true, false and null. */
  type AtomText = s: string | forall i :: 0 <= i < |s| ==> !IsMark(s[i]) witness ""

  datatype Json = Atom(text: AtomText) | Str(body: seq<Piece>) | Arr(items: seq<Json>) | Obj(members: seq<Member>)
  datatype Member = Member(key: seq<Piece>, value: Json)

  function PieceText(body: seq<Piece>): string {
    if body == [] then ""
    else
      var last := body[|body| - 1];
      PieceText(body[..|body| - 1]) + if last.Plain? then [last.c] else ['\\', last.c]
  }

  function Quoted(body: seq<Piece>): string { ['"'] + PieceText(body) + ['"'] }

  function Comma(n: nat): string { if n == 0 then "" else "," }

  function Text(v: Json): string
    decreases v, 0
  {
    match v
    case Atom(text) => text
    case Str(body) => Quoted(body)
    case Arr(items) => ['['] + ItemTexts(items) + [']']
    case Obj(members) => ['{'] + MemberTexts(members) + ['}']
  }

  function ItemTexts(items: seq<Json>): string
    decreases items, 1
  {
    if items == [] then ""
    else
      var n := |items| - 1;
      ItemTexts(items[..n]) + (Comma(n) + Text(items[n]))
  }

  function MemberTexts(members: seq<Member>): string
    decreases members, 1
  {
    if members == [] then ""
    else
      var n := |members| - 1;
      MemberTexts(members[..n]) + (Comma(n) + (Quoted(members[n].key) + (":" + Text(members[n].value))))
  }

  /* ---- Reading a text ---- */

  /** Outside or inside a quoted text, or behind a backslash there, with so many brackets
      open; Bad after a backslash outside. */
  datatype Lex = Out(depth: int) | In(depth: int) | Esc(depth: int) | Bad

  function Step(st: Lex, c: char): Lex {
    match st
    case Out(d) =>
      if c == '{' || c == '[' then Out(d + 1)
      else if c == '}' || c == ']' then Out(d - 1)
      else if c == '"' then In(d)
      else if c == '\\' then Bad
      else Out(d)
    case In(d) => if c == '"' then Out(d) else if c == '\\' then Esc(d) else In(d)
    case Esc(d) => In(d)
    case Bad => Bad
  }

  function Run(st: Lex, s: string): Lex {
    if s == [] then st else Step(Run(st, s[..|s| - 1]), s[|s| - 1])
  }

  lemma {:induction false} RunAppend(st: Lex, s: string, t: string)
    ensures Run(st, s + t) == Run(Run(st, s), t)
    decreases |t|
  {
    if t == [] {
      assert s + t == s;
    } else {
      var n := |t| - 1;
      assert (s + t)[..|s| + n] == s + t[..n];
      RunAppend(st, s, t[..n]);
    }
  }

  lemma RunOne(st: Lex, c: char)
    ensures Run(st, [c]) == Step(st, c)
  {
    assert [c][..0] == [];
  }

  /** Not bad, and at least `d` brackets open. */
  predicate Above(st: Lex, d: int) { !st.Bad? && st.depth >= d }

  predicate LevelAt(s: string, d: int, n: nat)
    requires n <= |s|
  {
    Above(Run(Out(d), s[..n]), d)
  }

  predicate Closes(s: string, d: int) { Run(Out(d), s) == Out(d) }

  /** Read from outside any quoted text, the text closes what it opens, and nothing else. */
  ghost predicate Level(s: string) {
    && (forall d :: Closes(s, d))
    && (forall d, n :: 0 <= n <= |s| ==> LevelAt(s, d, n))
  }

  lemma LevelAppend(s: string, t: string)
    requires Level(s) && Level(t)
    ensures Level(s + t)
  {
    var u := s + t;
    forall d
      ensures Closes(u, d)
    {
      assert Closes(s, d) && Closes(t, d);
      RunAppend(Out(d), s, t);
    }
    forall d, n | 0 <= n <= |u|
      ensures LevelAt(u, d, n)
    {
      if n <= |s| {
        assert u[..n] == s[..n] && LevelAt(s, d, n);
      } else {
        assert u[..n] == s + t[..n - |s|] && LevelAt(t, d, n - |s|) && Closes(s, d);
        RunAppend(Out(d), s, t[..n - |s|]);
      }
    }
  }

  lemma {:induction false} LevelUnmarked(s: string)
    requires forall i :: 0 <= i < |s| ==> !IsMark(s[i])
    ensures Level(s)
  {
    if s == [] {
      assert forall d, n :: n == 0 ==> LevelAt(s, d, n);
    } else {
      var k := |s| - 1;
      LevelUnmarked(s[..k]);
      LevelChar(s[k]);
      LevelAppend(s[..k], [s[k]]);
      assert s == s[..k] + [s[k]];
    }
  }

  lemma LevelChar(c: char)
    requires !IsMark(c)
    ensures Level([c])
  {
    forall d
      ensures Closes([c], d)
    {
      RunOne(Out(d), c);
    }
    forall d, n | 0 <= n <= 1
      ensures LevelAt([c], d, n)
    {
      assert Closes([c], d) && [c][..0] == [] && [c][..1] == [c];
    }
  }

  /** Inside the quotes. */
  lemma {:induction false} Inside(body: seq<Piece>, d: int)
    ensures Run(In(d), PieceText(body)) == In(d)
    ensures forall n :: 0 <= n <= |PieceText(body)| ==> Above(Run(In(d), PieceText(body)[..n]), d)
  {
    var s := PieceText(body);
    if body != [] {
      var k := |body| - 1;
      var init, last := PieceText(body[..k]), if body[k].Plain? then [body[k].c] else ['\\', body[k].c];
      Inside(body[..k], d);
      InsidePiece(body[k], d, last);
      RunAppend(In(d), init, last);
      forall n | 0 <= n <= |s|
        ensures Above(Run(In(d), s[..n]), d)
      {
        if n <= |init| {
          assert s[..n] == init[..n];
        } else {
          assert s[..n] == init + last[..n - |init|];
          RunAppend(In(d), init, last[..n - |init|]);
        }
      }
    }
  }

  lemma InsidePiece(p: Piece, d: int, text: string)
    requires text == if p.Plain? then [p.c] else ['\\', p.c]
    ensures Run(In(d), text) == In(d)
    ensures forall n :: 0 <= n <= |text| ==> Above(Run(In(d), text[..n]), d)
  {
    RunOne(In(d), text[0]);
    assert text[..0] == [] && text[..1] == [text[0]] && text[..|text|] == text;
    if p.Escape? {
      assert text == ['\\'] + [p.c];
      RunAppend(In(d), ['\\'], [p.c]);
      RunOne(Esc(d), p.c);
    }
  }

  /** A text between two marks: the first leads to `In` or one level deeper, the last back. */
  lemma Between(a: char, s: string, b: char, d: int, n: nat)
    requires n <= |s| + 2
    ensures
      var t := [a] + s + [b];
      Run(Out(d), t[..n]) ==
        if n == 0 then Out(d)
        else if n <= |s| + 1 then Run(Step(Out(d), a), s[..n - 1])
        else Step(Run(Step(Out(d), a), s), b)
  {
    var t := [a] + s + [b];
    RunOne(Out(d), a);
    if n == 0 {
      assert t[..0] == [];
    } else if n <= |s| + 1 {
      assert t[..n] == [a] + s[..n - 1];
      RunAppend(Out(d), [a], s[..n - 1]);
    } else {
      assert t[..n] == ([a] + s) + [b];
      RunAppend(Out(d), [a] + s, [b]);
      RunAppend(Out(d), [a], s);
      RunOne(Run(Step(Out(d), a), s), b);
    }
  }

  lemma LevelQuoted(body: seq<Piece>)
    ensures Level(Quoted(body))
  {
    var s, t := PieceText(body), Quoted(body);
    forall d
      ensures Closes(t, d)
    {
      Inside(body, d);
      Between('"', s, '"', d, |t|);
      assert t[..|t|] == t;
    }
    forall d, n | 0 <= n <= |t|
      ensures LevelAt(t, d, n)
    {
      Inside(body, d);
      Between('"', s, '"', d, n);
    }
  }

  /** Level, and deeper all the way between its ends. */
  ghost predicate Nested(t: string) {
    Level(t) && forall n :: 0 < n < |t| ==> Above(Run(Out(0), t[..n]), 1)
  }

  lemma NestedAt(a: char, s: string, b: char, d: int, n: nat)
    requires Level(s) && (a == '{' || a == '[') && (b == '}' || b == ']') && n <= |s| + 2
    ensures LevelAt([a] + s + [b], d, n) && Closes([a] + s + [b], d)
    ensures 0 < n < |s| + 2 ==> Above(Run(Out(d), ([a] + s + [b])[..n]), d + 1)
  {
    var t := [a] + s + [b];
    assert 0 < n <= |s| + 1 ==> LevelAt(s, d + 1, n - 1);
    assert Closes(s, d + 1);
    Between(a, s, b, d, n);
    Between(a, s, b, d, |t|);
    assert t[..|t|] == t;
  }

  lemma LevelNested(a: char, s: string, b: char)
    requires Level(s) && (a == '{' || a == '[') && (b == '}' || b == ']')
    ensures Nested([a] + s + [b])
  {
    var t := [a] + s + [b];
    forall d
      ensures Closes(t, d)
    {
      NestedAt(a, s, b, d, 0);
    }
    forall d, n | 0 <= n <= |t|
      ensures LevelAt(t, d, n)
    {
      NestedAt(a, s, b, d, n);
    }
    forall n | 0 < n < |t|
      ensures Above(Run(Out(0), t[..n]), 1)
    {
      NestedAt(a, s, b, 0, n);
    }
  }

  lemma {:induction false} LevelText(v: Json)
    ensures Level(Text(v))
    decreases v, 0
  {
    match v
    case Atom(text) => LevelUnmarked(text);
    case Str(body) => LevelQuoted(body);
    case Arr(items) =>
      LevelItems(items);
      LevelNested('[', ItemTexts(items), ']');
    case Obj(members) =>
      LevelMembers(members);
      LevelNested('{', MemberTexts(members), '}');
  }

  lemma {:induction false} LevelItems(items: seq<Json>)
    ensures Level(ItemTexts(items))
    decreases items, 1
  {
    if items == [] {
      LevelUnmarked("");
    } else {
      var n := |items| - 1;
      LevelItems(items[..n]);
      LevelText(items[n]);
      LevelUnmarked(Comma(n));
      LevelAppend(Comma(n), Text(items[n]));
      LevelAppend(ItemTexts(items[..n]), Comma(n) + Text(items[n]));
    }
  }

  lemma LevelMember(n: nat, key: seq<Piece>, text: string)
    requires Level(text)
    ensures Level(Comma(n) + (Quoted(key) + (":" + text)))
  {
    LevelQuoted(key);
    LevelUnmarked(":");
    LevelUnmarked(Comma(n));
    LevelAppend(":", text);
    LevelAppend(Quoted(key), ":" + text);
    LevelAppend(Comma(n), Quoted(key) + (":" + text));
  }

  lemma {:induction false} LevelMembers(members: seq<Member>)
    ensures Level(MemberTexts(members))
    decreases members, 1
  {
    if members == [] {
      LevelUnmarked("");
    } else {
      var n := |members| - 1;
      var key, text := members[n].key, Text(members[n].value);
      LevelMembers(members[..n]);
      LevelText(members[n].value);
      LevelMember(n, key, text);
      LevelAppend(MemberTexts(members[..n]), Comma(n) + (Quoted(key) + (":" + text)));
    }
  }

  /* ---- No text of an object ends with another ---- */

  /** Read from inside a quoted text, what is outside becomes inside and the other way
      round, for a reader that never goes bad. */
  lemma {:induction false} TurnedInside(s: string, d: int, e: int)
    requires NeverBad(Out(d), s) && NeverBad(In(e), s)
    ensures
      var a, b := Run(Out(d), s), Run(In(e), s);
      (a.Out? && b.In?) || (a.In? && b.Out?)
  {
    if s != [] {
      var k := |s| - 1;
      assert forall n :: 0 <= n <= k ==> s[..k][..n] == s[..n];
      TurnedInside(s[..k], d, e);
      assert s[..k + 1] == s;
    }
  }

  /** Read from outside, only the level differs. */
  lemma {:induction false} Shifted(s: string, d: int, e: int)
    requires !Run(Out(d), s).Bad?
    ensures
      var a, b := Run(Out(d), s), Run(Out(e), s);
      (a.Out? <==> b.Out?) && !b.Bad? && b.depth - a.depth == e - d && (a.In? <==> b.In?)
  {
    if s != [] {
      Shifted(s[..|s| - 1], d, e);
    }
  }

  ghost predicate NeverBad(st: Lex, s: string) {
    forall n :: 0 <= n <= |s| ==> !Run(st, s[..n]).Bad?
  }

  lemma NeverBadBehind(st: Lex, c: char, s: string)
    requires NeverBad(st, [c] + s)
    ensures NeverBad(Step(st, c), s)
  {
    forall n | 0 <= n <= |s|
      ensures !Run(Step(st, c), s[..n]).Bad?
    {
      assert ([c] + s)[..n + 1] == [c] + s[..n];
      RunAppend(st, [c], s[..n]);
      RunOne(st, c);
    }
  }

  lemma LevelNeverBad(s: string)
    requires Level(s)
    ensures NeverBad(Out(0), s)
  {
    forall n | 0 <= n <= |s|
      ensures !Run(Out(0), s[..n]).Bad?
    {
      assert LevelAt(s, 0, n);
    }
  }

  /** Read on from where brackets are open, an object's text does not end outside of all:
      it ends where it began, or inside a quoted text. */
  lemma EndsElsewhere(st: Lex, t: string)
    requires Nested(t) && t != "" && t[0] == '{' && Above(st, 1) && NeverBad(st, t)
    ensures Run(st, t) != Out(0)
  {
    assert Closes(t, 0);
    if st.Out? {
      Shifted(t, 0, st.depth);
    } else {
      var s := t[1..];
      assert t == ['{'] + s;
      LevelNeverBad(t);
      NeverBadBehind(st, '{', s);
      NeverBadBehind(Out(0), '{', s);
      TurnedInside(s, 1, st.depth);
      RunAppend(st, ['{'], s);
      RunAppend(Out(0), ['{'], s);
      RunOne(st, '{');
      RunOne(Out(0), '{');
    }
  }

  lemma NeverBadOn(u: string, t: string)
    requires Level(u + t)
    ensures NeverBad(Run(Out(0), u), t)
  {
    forall n | 0 <= n <= |t|
      ensures !Run(Run(Out(0), u), t[..n]).Bad?
    {
      assert (u + t)[..|u| + n] == u + t[..n] && LevelAt(u + t, 0, |u| + n);
      RunAppend(Out(0), u, t[..n]);
    }
  }

  /** No object's text ends with another's. */
  lemma NotBehind(u: string, t: string)
    requires Nested(u + t) && Nested(t) && t != "" && t[0] == '{'
    ensures u == ""
  {
    if u != "" {
      assert (u + t)[..|u|] == u;
      assert Closes(u + t, 0);
      RunAppend(Out(0), u, t);
      NeverBadOn(u, t);
      EndsElsewhere(Run(Out(0), u), t);
    }
  }

  /** The texts of maps: objects, and null for none. */
  ghost predicate IsMapText(s: string) {
    s == "null" || exists members :: s == Text(Obj(members))
  }

  lemma ObjNested(members: seq<Member>)
    ensures Nested(Text(Obj(members)))
  {
    LevelMembers(members);
    LevelNested('{', MemberTexts(members), '}');
  }

  lemma MapTextEnds(s: string)
    requires IsMapText(s)
    ensures s != "" && (s == "null" <==> s[|s| - 1] == 'l')
    ensures s != "null" ==> s[0] == '{' && Nested(s)
  {
    if s != "null" {
      var members :| s == Text(Obj(members));
      ObjNested(members);
    }
  }

  /** No map's text ends with that of another. */
  lemma MapTextsSuffixFree(u: string, t: string)
    requires IsMapText(u + t) && IsMapText(t)
    ensures u == ""
  {
    MapTextEnds(t);
    MapTextEnds(u + t);
    assert (u + t)[|u + t| - 1] == t[|t| - 1];
    if t == "null" {
      assert |u + t| == |t|;
    } else {
      NotBehind(u, t);
    }
  }
}
