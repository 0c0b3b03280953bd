/**
 The hand-written SQL splitter of the migration manager: a lexer with four modes (top level,
 single-quoted, double-quoted, dollar-quoted) that cuts a script at its top-level semicolons.

 `SplitSqlStatements` is the program's loop.  `RawSegments` is the same lexer as a recursion over the
 remaining text, `StateAt` an independent reference that walks one character at a time, and the lemmas
 at the end say where the text is cut and that splitting is a fixpoint.
 */
module SqlSplitter {
  import opened Common

  /** A character up to what the lexer can tell apart. The classes are disjoint:
      no white-space character is alphanumeric or an underscore (`TagChar`). */
  datatype Ch =
    | SingleQuote | DoubleQuote | Dollar | Semicolon
    | Space(code: int) | TagChar(code: int) | Other(code: int)

  type Text = seq<Ch>

  datatype Mode = Top | InSingle | InDouble | InDollar(tag: Text)

  // ---------------------------------------------------------------- trimming

  function StripLeft(s: Text): (r: Text)
    ensures r != [] ==> !r[0].Space?
  {
    if s != [] && s[0].Space? then StripLeft(s[1..]) else s
  }

  function StripRight(s: Text): (r: Text)
    ensures r <= s
    ensures r != [] ==> !r[|r| - 1].Space?
  {
    if s != [] && s[|s| - 1].Space? then StripRight(s[..|s| - 1]) else s
  }

  function Strip(s: Text): (r: Text)
    ensures Trimmed(r)
  {
    StripRight(StripLeft(s))
  }

  predicate Trimmed(s: Text) {
    s != [] ==> !s[0].Space? && !s[|s| - 1].Space?
  }

  ghost predicate AllSpace(s: Text) {
    forall i | 0 <= i < |s| :: s[i].Space?
  }

  lemma StripLeftParts(s: Text) returns (a: Text)
    ensures AllSpace(a) && s == a + StripLeft(s)
  {
    if s != [] && s[0].Space? {
      a := StripLeftParts(s[1..]);
      a := [s[0]] + a;
    } else {
      a := [];
    }
  }

  lemma StripRightParts(s: Text) returns (b: Text)
    ensures AllSpace(b) && s == StripRight(s) + b
  {
    if s != [] && s[|s| - 1].Space? {
      b := StripRightParts(s[..|s| - 1]);
      b := b + [s[|s| - 1]];
    } else {
      b := [];
    }
  }

  lemma StripTrimmed(s: Text)
    requires Trimmed(s)
    ensures Strip(s) == s
  {
  }

  // ---------------------------------------------------------------- the lexer

  /** Number of tag characters at the start of `s`. */
  function TagRun(s: Text): (k: nat)
    ensures k <= |s|
    ensures forall i | 0 <= i < k :: s[i].TagChar?
    ensures k < |s| ==> !s[k].TagChar?
  {
    if s != [] && s[0].TagChar? then 1 + TagRun(s[1..]) else 0
  }

  /** A complete dollar-quote delimiter. */
  ghost predicate IsTag(tag: Text) {
    && |tag| >= 2
    && tag[0] == Dollar && tag[|tag| - 1] == Dollar
    && forall i | 0 < i < |tag| - 1 :: tag[i].TagChar?
  }

  /** The dollar-quote delimiter that `s` starts with, if any. */
  function OpeningTag(s: Text): (r: Option<Text>)
    ensures r.Some? ==> IsTag(r.value) && r.value <= s
  {
    if s != [] && s[0] == Dollar then
      var j := 1 + TagRun(s[1..]);
      if j < |s| && s[j] == Dollar then Some(s[..j + 1]) else None
    else
      None
  }

  ghost predicate WellFormed(m: Mode) {
    m.InDollar? ==> IsTag(m.tag)
  }

  /** The token at the start of `s` in mode `m`: its length and the mode after it. */
  function Token(s: Text, m: Mode): (r: (nat, Mode))
    requires s != []
    ensures 1 <= r.0 <= |s|
    ensures WellFormed(m) ==> WellFormed(r.1)
  {
    match m
    case InDollar(tag) =>
      if tag != [] && tag <= s then (|tag|, Top) else (1, m)
    case Top =>
      var tag := OpeningTag(s);
      if tag.Some? then (|tag.value|, InDollar(tag.value))
      else if s[0] == SingleQuote then (1, InSingle)
      else if s[0] == DoubleQuote then (1, InDouble)
      else (1, Top)
    case InSingle =>
      if s[0] != SingleQuote then (1, InSingle)
      else if |s| > 1 && s[1] == SingleQuote then (2, InSingle)
      else (1, Top)
    case InDouble =>
      if s[0] == DoubleQuote then (1, Top) else (1, InDouble)
  }

  /** The pieces between the top-level semicolons of `s`, lexed from mode `m`, untrimmed. */
  function RawSegments(s: Text, m: Mode): (segs: seq<Text>)
    ensures |segs| >= 1
    decreases |s|
  {
    if s == [] then [[]]
    else if m.Top? && s[0] == Semicolon then [[]] + RawSegments(s[1..], Top)
    else
      var (k, m') := Token(s, m);
      Prepend(s[..k], RawSegments(s[k..], m'))
  }

  function Prepend(buf: Text, segs: seq<Text>): seq<Text>
    requires segs != []
  {
    [buf + segs[0]] + segs[1..]
  }

  /** The trimmed non-empty segments, in order. */
  function Kept(segs: seq<Text>): seq<Text> {
    if segs == [] then []
    else (if Strip(segs[0]) != [] then [Strip(segs[0])] else []) + Kept(segs[1..])
  }

  function Split(x: Text): seq<Text> {
    Kept(RawSegments(Strip(x), Top))
  }

  /** Statements joined with ";". */
  function Join(segs: seq<Text>): Text {
    if segs == [] then []
    else if |segs| == 1 then segs[0]
    else segs[0] + [Semicolon] + Join(segs[1..])
  }

  // ---------------------------------------------------------------- the loop

  /** What the loop has done after reading `text[..i]`: `statements` emitted, `buf` pending, lexer in `m`. */
  ghost predicate Progress(text: Text, statements: seq<Text>, buf: Text, i: nat, m: Mode)
    requires i <= |text|
  {
    Kept(RawSegments(text, Top)) == statements + Kept(Prepend(buf, RawSegments(text[i..], m)))
  }

  /** The inner loop: the end of the run of tag characters after `text[i]`. */
  method ScanTag(text: Text, i: nat) returns (j: nat)
    requires i < |text|
    ensures i < j <= |text|
    ensures forall x | i < x < j :: text[x].TagChar?
    ensures j < |text| ==> !text[j].TagChar?
  {
    j := i + 1;
    while j < |text| && text[j].TagChar?
      invariant i < j <= |text|
      invariant forall x | i < x < j :: text[x].TagChar?
    {
      j := j + 1;
    }
  }

  method SplitSqlStatements(sqlText: Option<Text>) returns (statements: seq<Text>)
    ensures statements == Split(if sqlText.Some? then sqlText.value else [])
  {
    hide Split, Kept, RawSegments, Prepend, Progress, Token, TagRun, Strip;
    ghost var x := if sqlText.Some? then sqlText.value else [];
    var text := Strip(if sqlText.Some? then sqlText.value else []);
    if text == [] {
      SplitBlank(x);
      return [];
    }
    statements := [];
    var buf: Text := [];
    var i, n := 0, |text|;
    var inSingle, inDouble := false, false;
    var dollarTag: Option<Text> := None;
    ghost var m: Mode := Top;
    ProgressStart(text);
    while i < n
      invariant 0 <= i <= n
      invariant inSingle == m.InSingle? && inDouble == m.InDouble? && dollarTag.Some? == m.InDollar?
      invariant m.InDollar? ==> dollarTag == Some(m.tag)
      invariant WellFormed(m)
      invariant Progress(text, statements, buf, i, m)
    {
      var ch := text[i];
      ghost var statements0, buf0, i0, m0 := statements, buf, i, m;

      if dollarTag.Some? {
        var tag := dollarTag.value;
        if tag <= text[i..] {
          buf := buf + tag;
          i := i + |tag|;
          dollarTag, m := None, Top;
          CloseStep(text, statements, buf0, i0, tag, buf, i);
          continue;
        }
        buf, i := buf + [ch], i + 1;
        PlainStep(text, statements, buf0, i0, m, buf, i);
        continue;
      }

      if !inSingle && !inDouble && ch == Dollar {
        var j := ScanTag(text, i);
        OpeningTagAt(text, i, j);
        if j < n && text[j] == Dollar {
          var tag := text[i..j + 1];
          dollarTag, m := Some(tag), InDollar(tag);
          buf := buf + tag;
          i := j + 1;
          OpenStep(text, statements, buf0, i0, tag, buf, i);
          continue;
        }
      }

      if ch == SingleQuote && !inDouble {
        if inSingle && i + 1 < n && text[i + 1] == SingleQuote {
          buf, i := buf + [SingleQuote, SingleQuote], i + 2;
          DoubledQuoteStep(text, statements, buf0, i0, buf, i);
          continue;
        }
        inSingle := !inSingle;
        buf, i := buf + [ch], i + 1;
        m := if m.Top? then InSingle else Top;
        ToggleStep(text, statements, buf0, i0, m0, buf, i, m);
        continue;
      }

      if ch == DoubleQuote && !inSingle {
        inDouble := !inDouble;
        buf, i := buf + [ch], i + 1;
        m := if m.Top? then InDouble else Top;
        ToggleStep(text, statements, buf0, i0, m0, buf, i, m);
        continue;
      }

      if ch == Semicolon && !inSingle && !inDouble {
        var stmt := Strip(buf);
        if stmt != [] {
          statements := statements + [stmt];
        }
        buf, i := [], i + 1;
        CutStep(text, statements0, buf0, i0, i);
        continue;
      }

      buf, i := buf + [ch], i + 1;
      PlainStep(text, statements, buf0, i0, m, buf, i);
    }
    ProgressEnd(x, statements, buf, m);
    var tail := Strip(buf);
    if tail != [] {
      statements := statements + [tail];
    }
  }

  lemma PrependPrepend(a: Text, b: Text, segs: seq<Text>)
    requires segs != []
    ensures Prepend(a, Prepend(b, segs)) == Prepend(a + b, segs)
  {
    assert a + (b + segs[0]) == a + b + segs[0];
  }

  lemma PrependNothing(segs: seq<Text>)
    requires segs != []
    ensures Prepend([], segs) == segs
  {
    assert [] + segs[0] == segs[0];
    assert segs == [segs[0]] + segs[1..];
  }

  lemma ProgressStart(text: Text)
    ensures Progress(text, [], [], 0, Top)
  {
    assert text[0..] == text;
    PrependNothing(RawSegments(text, Top));
  }

  lemma ProgressEnd(x: Text, statements: seq<Text>, buf: Text, m: Mode)
    requires Progress(Strip(x), statements, buf, |Strip(x)|, m)
    ensures Split(x) == statements + (if Strip(buf) != [] then [Strip(buf)] else [])
  {
    var text := Strip(x);
    assert buf + [] == buf;
    assert Prepend(buf, RawSegments(text[|text|..], m)) == [buf];
    assert Kept([buf]) == if Strip(buf) != [] then [Strip(buf)] else [];
  }

  lemma SplitBlank(x: Text)
    requires Strip(x) == []
    ensures Split(x) == []
  {
    assert RawSegments([], Top) == [[]];
    assert Kept([[]]) == [];
  }

  /** The loop's scan for a dollar-quote delimiter finds `OpeningTag`. */
  lemma OpeningTagAt(text: Text, i: nat, j: nat)
    requires i < j <= |text| && text[i] == Dollar
    requires forall x | i < x < j :: text[x].TagChar?
    requires j < |text| ==> !text[j].TagChar?
    ensures OpeningTag(text[i..]) == if j < |text| && text[j] == Dollar then Some(text[i..j + 1]) else None
  {
    var rest := text[i..];
    var k := TagRun(rest[1..]);
    assert forall x | i < x < |text| :: rest[1..][x - i - 1] == text[x];
    assert k == j - i - 1;
    assert j < |text| ==> rest[..j + 1 - i] == text[i..j + 1];
  }

  /** One iteration that consumes a token. */
  lemma TokenStep(text: Text, statements: seq<Text>, buf: Text, i: nat, m: Mode, buf': Text, i': nat, m': Mode)
    requires i < i' <= |text|
    requires !(m.Top? && text[i] == Semicolon)
    requires Token(text[i..], m) == (i' - i, m') && buf' == buf + text[i..i']
    requires Progress(text, statements, buf, i, m)
    ensures Progress(text, statements, buf', i', m')
  {
    var rest := text[i..];
    assert rest[..i' - i] == text[i..i'] && rest[i' - i..] == text[i'..];
    PrependPrepend(buf, text[i..i'], RawSegments(text[i'..], m'));
  }

  /** A character that ends nothing and starts nothing. */
  lemma PlainStep(text: Text, statements: seq<Text>, buf: Text, i: nat, m: Mode, buf': Text, i': nat)
    requires i < |text| && i' == i + 1 && buf' == buf + [text[i]]
    requires m.InDollar? ==> IsTag(m.tag) && !(m.tag <= text[i..])
    requires !m.InDollar? && !m.InDouble? ==> text[i] != SingleQuote
    requires !m.InDollar? && !m.InSingle? ==> text[i] != DoubleQuote
    requires m.Top? ==> text[i] != Semicolon && (text[i] == Dollar ==> OpeningTag(text[i..]).None?)
    requires Progress(text, statements, buf, i, m)
    ensures Progress(text, statements, buf', i', m)
  {
    TokenStep(text, statements, buf, i, m, buf', i', m);
  }

  /** A quote that opens or closes a quoted block. */
  lemma ToggleStep(text: Text, statements: seq<Text>, buf: Text, i: nat, m: Mode, buf': Text, i': nat, m': Mode)
    requires i < |text| && i' == i + 1 && buf' == buf + [text[i]]
    requires !m.InDollar?
    requires (text[i] == SingleQuote && !m.InDouble?) || (text[i] == DoubleQuote && !m.InSingle?)
    requires m.InSingle? && i + 1 < |text| ==> text[i + 1] != SingleQuote
    requires m' == if !m.Top? then Top else if text[i] == SingleQuote then InSingle else InDouble
    requires Progress(text, statements, buf, i, m)
    ensures Progress(text, statements, buf', i', m')
  {
    TokenStep(text, statements, buf, i, m, buf', i', m');
  }

  /** A doubled quote inside single quotes. */
  lemma DoubledQuoteStep(text: Text, statements: seq<Text>, buf: Text, i: nat, buf': Text, i': nat)
    requires i' == i + 2 && buf' == buf + [SingleQuote, SingleQuote]
    requires i + 1 < |text| && text[i] == SingleQuote && text[i + 1] == SingleQuote
    requires Progress(text, statements, buf, i, InSingle)
    ensures Progress(text, statements, buf', i', InSingle)
  {
    TokenStep(text, statements, buf, i, InSingle, buf', i', InSingle);
  }

  /** The iteration that closes a dollar quote. */
  lemma CloseStep(text: Text, statements: seq<Text>, buf: Text, i: nat, tag: Text, buf': Text, i': nat)
    requires i < |text| && IsTag(tag) && tag <= text[i..]
    requires i' == i + |tag| && buf' == buf + tag
    requires Progress(text, statements, buf, i, InDollar(tag))
    ensures Progress(text, statements, buf', i', Top)
  {
    assert text[i..i'] == text[i..][..|tag|] == tag;
    TokenStep(text, statements, buf, i, InDollar(tag), buf', i', Top);
  }

  /** The iteration that opens a dollar quote. */
  lemma OpenStep(text: Text, statements: seq<Text>, buf: Text, i: nat, tag: Text, buf': Text, i': nat)
    requires i < i' <= |text| && tag == text[i..i']
    requires OpeningTag(text[i..]) == Some(tag) && buf' == buf + tag
    requires Progress(text, statements, buf, i, Top)
    ensures Progress(text, statements, buf', i', InDollar(tag))
  {
    TokenStep(text, statements, buf, i, Top, buf', i', InDollar(tag));
  }

  /** One iteration that cuts. */
  lemma {:induction false} CutStep(text: Text, statements: seq<Text>, buf: Text, i: nat, i': nat)
    requires i < |text| && i' == i + 1 && text[i] == Semicolon
    requires Progress(text, statements, buf, i, Top)
    ensures Strip(buf) == [] ==> Progress(text, statements, [], i', Top)
    ensures Strip(buf) != [] ==> Progress(text, statements + [Strip(buf)], [], i', Top)
  {
    hide Strip;
    var rest := RawSegments(text[i'..], Top);
    assert text[i..][1..] == text[i'..];
    assert RawSegments(text[i..], Top) == [[]] + rest;
    PrependNothing(rest);
    KeptCons(buf, rest);
    assert Prepend(buf, [[]] + rest) == [buf] + rest by {
      assert buf + [] == buf && ([[]] + rest)[1..] == rest;
    }
    assert statements + [Strip(buf)] + Kept(rest) == statements + ([Strip(buf)] + Kept(rest));
  }

  lemma {:induction false} KeptCons(first: Text, rest: seq<Text>)
    ensures Kept([first] + rest) == (if Strip(first) != [] then [Strip(first)] else []) + Kept(rest)
  {
    assert ([first] + rest)[1..] == rest;
  }

  // ---------------------------------------------------------------- what can follow a segment

  /** A text the lexer never looks into from the segment before it. */
  predicate Barrier(t: Text) {
    t == [] || t[0] == Semicolon || t[0].Space?
  }

  lemma TagRunBarrier(s: Text, t: Text)
    requires Barrier(t)
    ensures TagRun(s + t) == TagRun(s)
  {
    if s != [] && s[0].TagChar? {
      assert (s + t)[1..] == s[1..] + t;
      TagRunBarrier(s[1..], t);
    }
  }

  lemma OpeningTagBarrier(s: Text, t: Text)
    requires s != [] && Barrier(t)
    ensures OpeningTag(s + t) == OpeningTag(s)
  {
    assert (s + t)[1..] == s[1..] + t;
    TagRunBarrier(s[1..], t);
    var j := 1 + TagRun(s[1..]);
    assert j < |s| ==> (s + t)[..j + 1] == s[..j + 1];
  }

  lemma PrefixBarrier(tag: Text, s: Text, t: Text)
    requires IsTag(tag) && Barrier(t)
    ensures tag <= s + t <==> tag <= s
  {
    assert t != [] ==> (s + t)[|s|] == t[0];
    assert tag <= s + t ==> (forall i | 0 <= i < |tag| :: tag[i] == (s + t)[i]);
  }

  /** No lookahead reaches past a semicolon or white space. */
  lemma TokenBarrier(s: Text, t: Text, m: Mode)
    requires s != [] && Barrier(t) && WellFormed(m)
    ensures Token(s + t, m) == Token(s, m)
  {
    OpeningTagBarrier(s, t);
    if m.InDollar? {
      PrefixBarrier(m.tag, s, t);
    }
  }

  // ---------------------------------------------------------------- lexing one segment

  /** The mode after lexing all of `s` from `m`, or None if a top-level semicolon is met. */
  function Lex(s: Text, m: Mode): (r: Option<Mode>)
    ensures WellFormed(m) && r.Some? ==> WellFormed(r.value)
    decreases |s|
  {
    if s == [] then Some(m)
    else if m.Top? && s[0] == Semicolon then None
    else
      var (k, m') := Token(s, m);
      Lex(s[k..], m')
  }

  lemma {:induction false} LexAppend(s: Text, t: Text, m: Mode)
    requires Barrier(t) && WellFormed(m)
    ensures Lex(s + t, m) == if Lex(s, m).None? then None else Lex(t, Lex(s, m).value)
    decreases |s|
  {
    if s == [] {
      assert s + t == t;
    } else if !(m.Top? && s[0] == Semicolon) {
      TokenBarrier(s, t, m);
      var (k, m') := Token(s, m);
      assert (s + t)[k..] == s[k..] + t;
      LexAppend(s[k..], t, m');
    }
  }

  /** White space is lexed one character at a time and never changes the mode. */
  lemma {:induction false} LexSpaces(a: Text, t: Text, m: Mode)
    requires AllSpace(a) && WellFormed(m)
    ensures Lex(a + t, m) == Lex(t, m)
    decreases |a|
  {
    if a == [] {
      assert a + t == t;
    } else {
      assert Token(a + t, m) == (1, m);
      assert (a + t)[1..] == a[1..] + t;
      LexSpaces(a[1..], t, m);
    }
  }

  /** Trimming a segment does not change how it is lexed. */
  lemma LexStrip(s: Text)
    ensures Lex(Strip(s), Top) == Lex(s, Top)
  {
    var a := StripLeftParts(s);
    LexSpaces(a, StripLeft(s), Top);
    var b := StripRightParts(StripLeft(s));
    LexAppend(Strip(s), b, Top);
    if Lex(Strip(s), Top).Some? {
      assert b + [] == b;
      LexSpaces(b, [], Lex(Strip(s), Top).value);
    }
  }

  // ---------------------------------------------------------------- the cut is the only one possible

  /** Every segment is free of top-level semicolons, and all but the last end at top level. */
  ghost predicate WellCut(segs: seq<Text>, m: Mode) {
    && segs != []
    && Lex(segs[0], m).Some?
    && (|segs| > 1 ==> Lex(segs[0], m) == Some(Top) && WellCut(segs[1..], Top))
  }

  /** What follows the first segment. */
  function After(segs: seq<Text>): (r: Text)
    ensures Barrier(r)
  {
    if |segs| > 1 then [Semicolon] + Join(segs[1..]) else []
  }

  lemma {:induction false} JoinHead(segs: seq<Text>)
    requires segs != []
    ensures Join(segs) == segs[0] + After(segs)
  {
    if |segs| > 1 {
      assert segs[0] + [Semicolon] + Join(segs[1..]) == segs[0] + ([Semicolon] + Join(segs[1..]));
    }
  }

  lemma JoinPrepend(buf: Text, segs: seq<Text>)
    requires segs != []
    ensures Join(Prepend(buf, segs)) == buf + Join(segs) && After(Prepend(buf, segs)) == After(segs)
  {
    var longer := Prepend(buf, segs);
    assert longer[1..] == segs[1..];
    JoinHead(segs);
    JoinHead(longer);
    assert buf + segs[0] + After(segs) == buf + (segs[0] + After(segs));
  }

  /** A first segment that starts with a token, in terms of the segments after that token. */
  lemma WellCutToken(head: Text, segs: seq<Text>, m: Mode)
    requires segs != [] && head != [] && WellFormed(m)
    requires !(m.Top? && head[0] == Semicolon)
    requires var (k, m') := Token(head, m); segs[0] == head[k..]
    ensures var (k, m') := Token(head, m);
            WellCut(Prepend(head[..k], segs), m) <==> WellCut(segs, m')
  {
    var (k, m') := Token(head, m);
    var longer := Prepend(head[..k], segs);
    assert longer[0] == head && longer[1..] == segs[1..];
    assert Lex(head, m) == Lex(segs[0], m');
  }

  lemma {:induction false} SegmentsWellCut(s: Text, m: Mode)
    requires WellFormed(m)
    ensures WellCut(RawSegments(s, m), m) && Join(RawSegments(s, m)) == s
    decreases |s|
  {
    if s == [] {
    } else if m.Top? && s[0] == Semicolon {
      SegmentsWellCut(s[1..], Top);
      var rest := RawSegments(s[1..], Top);
      JoinHead([[]] + rest);
      assert ([[]] + rest)[1..] == rest;
      assert [] + ([Semicolon] + s[1..]) == s;
    } else {
      var (k, m') := Token(s, m);
      SegmentsWellCut(s[k..], m');
      SegmentsTokenWellCut(s, m, RawSegments(s[k..], m'));
    }
  }

  lemma SegmentsTokenWellCut(s: Text, m: Mode, rest: seq<Text>)
    requires s != [] && WellFormed(m) && !(m.Top? && s[0] == Semicolon)
    requires var (k, m') := Token(s, m); WellCut(rest, m') && Join(rest) == s[k..]
    ensures var (k, _) := Token(s, m);
            WellCut(Prepend(s[..k], rest), m) && Join(Prepend(s[..k], rest)) == s
  {
    hide Token, Lex;
    var (k, m') := Token(s, m);
    var head := s[..k] + rest[0];
    JoinPrepend(s[..k], rest);
    JoinHead(rest);
    assert s == head + After(rest) by {
      assert s == s[..k] + s[k..];
    }
    TokenBarrier(head, After(rest), m);
    assert head[k..] == rest[0] && head[..k] == s[..k];
    WellCutToken(head, rest, m);
  }

  lemma {:induction false} WellCutIsSegments(segs: seq<Text>, m: Mode)
    requires WellFormed(m) && WellCut(segs, m)
    ensures RawSegments(Join(segs), m) == segs
    decreases |segs|, |segs[0]|
  {
    hide Token, OpeningTag;
    var head := segs[0];
    JoinHead(segs);
    if head == [] {
      if |segs| > 1 {
        WellCutIsSegments(segs[1..], Top);
        WellCutEmptyHead(segs, m);
      }
    } else {
      var (k, m') := Token(head, m);
      var shorter := [head[k..]] + segs[1..];
      assert head[..k] + head[k..] == head && shorter[1..] == segs[1..];
      assert segs == Prepend(head[..k], shorter);
      WellCutToken(head, shorter, m);
      WellCutIsSegments(shorter, m');
      JoinPrepend(head[..k], shorter);
      SegmentsOfToken(Join(segs), head, After(segs), m, shorter);
    }
  }

  lemma WellCutEmptyHead(segs: seq<Text>, m: Mode)
    requires |segs| > 1 && segs[0] == [] && WellCut(segs, m)
    requires RawSegments(Join(segs[1..]), Top) == segs[1..]
    ensures RawSegments(Join(segs), m) == segs
  {
    JoinHead(segs);
    var s := Join(segs);
    assert m == Top && s[0] == Semicolon && s[1..] == Join(segs[1..]);
    assert segs == [[]] + segs[1..];
  }

  lemma SegmentsOfToken(s: Text, head: Text, after: Text, m: Mode, shorter: seq<Text>)
    requires head != [] && WellFormed(m) && Barrier(after) && s == head + after
    requires !(m.Top? && head[0] == Semicolon)
    requires shorter != []
    requires var (k, m') := Token(head, m); s == head[..k] + Join(shorter) && RawSegments(Join(shorter), m') == shorter
    ensures var (k, _) := Token(head, m); RawSegments(s, m) == Prepend(head[..k], shorter)
  {
    TokenBarrier(head, after, m);
    var (k, m') := Token(head, m);
    assert s[..k] == head[..k] && s[k..] == Join(shorter);
  }

  /** The splitter's segments are the one and only decomposition of the text into pieces joined by ";"
      in which no piece holds a top-level semicolon and every piece but the last ends at top level. */
  lemma SegmentsCharacterised(s: Text, segs: seq<Text>)
    ensures segs == RawSegments(s, Top) <==> WellCut(segs, Top) && Join(segs) == s
  {
    SegmentsWellCut(s, Top);
    if WellCut(segs, Top) && Join(segs) == s {
      WellCutIsSegments(segs, Top);
    }
  }

  // ---------------------------------------------------------------- splitting is a fixpoint

  lemma {:induction false} KeptWellCut(segs: seq<Text>)
    requires WellCut(segs, Top)
    ensures Kept(segs) != [] ==> WellCut(Kept(segs), Top)
    ensures forall i | 0 <= i < |Kept(segs)| :: Kept(segs)[i] != [] && Trimmed(Kept(segs)[i])
  {
    hide Lex, Strip;
    LexStrip(segs[0]);
    var first := Strip(segs[0]);
    var rest := Kept(segs[1..]);
    if |segs| > 1 {
      KeptWellCut(segs[1..]);
    }
    if first == [] {
      assert Kept(segs) == rest;
    } else {
      assert Kept(segs) == [first] + rest && ([first] + rest)[1..] == rest;
    }
  }

  lemma {:induction false} KeptKept(ss: seq<Text>)
    requires forall i | 0 <= i < |ss| :: ss[i] != [] && Trimmed(ss[i])
    ensures Kept(ss) == ss
  {
    if ss != [] {
      StripTrimmed(ss[0]);
      KeptKept(ss[1..]);
    }
  }

  lemma {:induction false} JoinTrimmed(ss: seq<Text>)
    requires ss != [] && forall i | 0 <= i < |ss| :: ss[i] != [] && Trimmed(ss[i])
    ensures Join(ss) != [] && Trimmed(Join(ss))
  {
    if |ss| > 1 {
      JoinTrimmed(ss[1..]);
    }
  }

  lemma SplitWellCut(ss: seq<Text>)
    requires ss != [] && forall i | 0 <= i < |ss| :: ss[i] != [] && Trimmed(ss[i])
    requires WellCut(ss, Top)
    ensures Split(Join(ss)) == ss
  {
    JoinTrimmed(ss);
    StripTrimmed(Join(ss));
    WellCutIsSegments(ss, Top);
    KeptKept(ss);
  }

  /** Splitting the statements of any text, joined with ";", gives exactly those statements again. */
  lemma SplitFixpoint(x: Text)
    ensures Split(Join(Split(x))) == Split(x)
  {
    SegmentsWellCut(Strip(x), Top);
    KeptWellCut(RawSegments(Strip(x), Top));
    if Split(x) != [] {
      SplitWellCut(Split(x));
    } else {
      assert Strip([]) == [] && RawSegments([], Top) == [[]];
      assert Kept([[]]) == [];
    }
  }

  lemma {:induction false} WellCutAt(segs: seq<Text>, i: nat)
    requires WellCut(segs, Top) && i < |segs|
    ensures WellCut([segs[i]], Top)
  {
    hide Lex;
    if i > 0 {
      WellCutAt(segs[1..], i - 1);
    }
  }

  /** Every emitted statement is non-empty, trimmed, and splits to itself alone - including a last one
      that ends inside a quoted block. */
  lemma EachStatementAlone(x: Text, i: nat)
    requires i < |Split(x)|
    ensures Split(x)[i] != [] && Trimmed(Split(x)[i])
    ensures Split(Split(x)[i]) == [Split(x)[i]]
  {
    hide Kept, RawSegments, Lex, Strip, WellCut;
    SegmentsWellCut(Strip(x), Top);
    KeptWellCut(RawSegments(Strip(x), Top));
    WellCutAt(Split(x), i);
    var alone := [Split(x)[i]];
    SplitWellCut(alone);
    assert Join(alone) == Split(x)[i];
  }

  // ---------------------------------------------------------------- the character-level reference

  /** Between two characters: in a mode, or inside a dollar-quote delimiter with `left` characters to go. */
  datatype Scan = At(mode: Mode) | Inside(left: nat, next: Mode)

  /** One character of the reference: a quote always toggles, so a doubled one leaves and re-enters. */
  function CharStep(s: Text, i: nat, st: Scan): Scan
    requires i < |s|
  {
    match st
    case Inside(left, next) => if left <= 1 then At(next) else Inside(left - 1, next)
    case At(Top) =>
      var tag := OpeningTag(s[i..]);
      if tag.Some? then Inside(|tag.value| - 1, InDollar(tag.value))
      else if s[i] == SingleQuote then At(InSingle)
      else if s[i] == DoubleQuote then At(InDouble)
      else At(Top)
    case At(InSingle) => if s[i] == SingleQuote then At(Top) else st
    case At(InDouble) => if s[i] == DoubleQuote then At(Top) else st
    case At(InDollar(tag)) => if tag != [] && tag <= s[i..] then Inside(|tag| - 1, Top) else st
  }

  function StateAt(s: Text, i: nat): Scan
    requires i <= |s|
  {
    if i == 0 then At(Top) else CharStep(s, i - 1, StateAt(s, i - 1))
  }

  predicate IsCut(s: Text, i: nat)
    requires i < |s|
  {
    s[i] == Semicolon && StateAt(s, i) == At(Top)
  }

  /** `s[from..]` cut at exactly the cut positions at or after `i`. */
  function Pieces(s: Text, from: nat, i: nat): (r: seq<Text>)
    requires from <= i <= |s|
    ensures r != []
    decreases |s| - i
  {
    if i == |s| then [s[from..]]
    else if IsCut(s, i) then [s[from..i]] + Pieces(s, i + 1, i + 1)
    else Pieces(s, from, i + 1)
  }

  lemma {:induction false} PiecesInside(s: Text, from: nat, i: nat, left: nat, m: Mode)
    requires from <= i && i + left <= |s| && left >= 1
    requires StateAt(s, i) == Inside(left, m)
    ensures StateAt(s, i + left) == At(m) && Pieces(s, from, i) == Pieces(s, from, i + left)
    decreases left
  {
    assert StateAt(s, i + 1) == CharStep(s, i, StateAt(s, i));
    assert Pieces(s, from, i) == Pieces(s, from, i + 1);
    if left > 1 {
      PiecesInside(s, from, i + 1, left - 1, m);
    }
  }

  /** The reference reads a token as the lexer does, and sees no cut inside it. */
  lemma {:induction false} PiecesToken(s: Text, from: nat, i: nat, m: Mode)
    requires from <= i < |s| && StateAt(s, i) == At(m) && WellFormed(m)
    requires !(m.Top? && s[i] == Semicolon)
    ensures var (k, m') := Token(s[i..], m);
            i + k <= |s| && StateAt(s, i + k) == At(m') && Pieces(s, from, i) == Pieces(s, from, i + k)
  {
    var (k, m') := Token(s[i..], m);
    assert StateAt(s, i + 1) == CharStep(s, i, At(m));
    assert Pieces(s, from, i) == Pieces(s, from, i + 1);
    if (m.InDollar? && m.tag <= s[i..]) || (m.Top? && OpeningTag(s[i..]).Some?) {
      PiecesInside(s, from, i + 1, k - 1, m');
      return;
    }
    if k == 2 {
      assert s[i..][1] == s[i + 1];
      PiecesQuote(s, from, i + 1);
    }
  }

  /** The second of two single quotes opens the quoted text again. */
  lemma {:induction false} PiecesQuote(s: Text, from: nat, i: nat)
    requires from <= i < |s| && StateAt(s, i) == At(Top) && s[i] == SingleQuote
    ensures StateAt(s, i + 1) == At(InSingle) && Pieces(s, from, i) == Pieces(s, from, i + 1)
  {
    assert StateAt(s, i + 1) == CharStep(s, i, At(Top));
    assert OpeningTag(s[i..]).None?;
  }

  lemma {:induction false} PiecesAreSegments(s: Text, from: nat, i: nat, m: Mode)
    requires from <= i <= |s| && StateAt(s, i) == At(m) && WellFormed(m)
    ensures Pieces(s, from, i) == Prepend(s[from..i], RawSegments(s[i..], m))
    decreases |s| - i
  {
    hide Token, StateAt, CharStep, Lex, OpeningTag;
    if i == |s| {
      assert s[from..i] + [] == s[from..];
    } else if m.Top? && s[i] == Semicolon {
      StateAfterCut(s, i);
      PiecesAreSegments(s, i + 1, i + 1, Top);
      SegmentsAtCut(s, from, i);
    } else {
      PiecesToken(s, from, i, m);
      var (k, m') := Token(s[i..], m);
      PiecesAreSegments(s, from, i + k, m');
      SegmentsAtToken(s, from, i, m);
    }
  }

  lemma StateAfterCut(s: Text, i: nat)
    requires i < |s| && s[i] == Semicolon && StateAt(s, i) == At(Top)
    ensures StateAt(s, i + 1) == At(Top)
  {
    assert StateAt(s, i + 1) == CharStep(s, i, At(Top));
    assert OpeningTag(s[i..]).None?;
  }

  lemma SegmentsAtToken(s: Text, from: nat, i: nat, m: Mode)
    requires from <= i < |s| && !(m.Top? && s[i] == Semicolon)
    ensures var (k, m') := Token(s[i..], m);
            && i + k <= |s|
            && Prepend(s[from..i], RawSegments(s[i..], m)) == Prepend(s[from..i + k], RawSegments(s[i + k..], m'))
  {
    hide Token, OpeningTag;
    var (k, m') := Token(s[i..], m);
    assert s[i..][k..] == s[i + k..] && s[i..][..k] == s[i..i + k];
    assert s[from..i] + s[i..i + k] == s[from..i + k];
    PrependPrepend(s[from..i], s[i..i + k], RawSegments(s[i + k..], m'));
  }

  lemma SegmentsAtCut(s: Text, from: nat, i: nat)
    requires from <= i < |s| && s[i] == Semicolon
    ensures Prepend(s[from..i], RawSegments(s[i..], Top))
         == [s[from..i]] + Prepend(s[i + 1..i + 1], RawSegments(s[i + 1..], Top))
  {
    var rest := RawSegments(s[i + 1..], Top);
    assert s[i..][1..] == s[i + 1..];
    PrependNothing(rest);
    assert s[i + 1..i + 1] == [];
    assert s[from..i] + [] == s[from..i] && ([[]] + rest)[1..] == rest;
    assert RawSegments(s[i..], Top) == [[]] + rest;
  }

  /** The splitter cuts at a semicolon exactly when the reference is at top level there; nothing is lost
      and the statements are the trimmed non-empty pieces in order. */
  lemma SplitCutsAtTopLevel(x: Text)
    ensures Split(x) == Kept(Pieces(Strip(x), 0, 0)) && Join(Pieces(Strip(x), 0, 0)) == Strip(x)
  {
    var s := Strip(x);
    PiecesAreSegments(s, 0, 0, Top);
    assert s[0..] == s && s[0..0] == [];
    PrependNothing(RawSegments(s, Top));
    SegmentsWellCut(s, Top);
  }
}
