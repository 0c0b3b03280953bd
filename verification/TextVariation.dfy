/**
 Invisible variation of a message text: zero-width characters appended and inserted, without touching the
 inside of usernames, links, tags and character references.
 */
module TextVariation {
  import opened Common

  type Text = seq<char>

  const ZERO_WIDTH: Text := ['\U{200B}', '\U{200C}', '\U{200D}', '\U{FEFF}']

  ghost predicate SpansOf(spans: seq<Span>, n: nat) {
    forall k | 0 <= k < |spans| :: spans[k].start <= spans[k].end <= n
  }

  ghost predicate Distinct<T>(s: seq<T>) {
    forall i, j | 0 <= i < j < |s| :: s[i] != s[j]
  }

  function Seen(c: char): Text {
    if c in ZERO_WIDTH then [] else [c]
  }

  /** What a reader sees of a text. */
  function Erase(s: Text): Text {
    if s == [] then [] else Seen(s[0]) + Erase(s[1..])
  }

  predicate Splits(spans: seq<Span>, pos: nat) {
    exists k :: 0 <= k < |spans| && spans[k].start < pos < spans[k].end
  }

  // ---------------------------------------------------------------- the insertions, all at once

  function Mark(chosen: set<nat>, z: char, i: nat): Text {
    if i in chosen then [z] else []
  }

  /** `z` before every chosen position, and the text from `i` as it was. */
  ghost function Spread(s: Text, chosen: set<nat>, z: char, i: nat): Text
    requires i <= |s|
    decreases |s| - i
  {
    if i == |s| then [] else Mark(chosen, z, i) + [s[i]] + Spread(s, chosen, z, i + 1)
  }

  lemma {:induction false} SpreadSkips(s: Text, chosen: set<nat>, z: char, i: nat, p: nat)
    requires i <= p <= |s| && forall q | i <= q < p :: q !in chosen
    ensures Spread(s, chosen, z, i) == s[i..p] + Spread(s, chosen, z, p)
    decreases p - i
  {
    if i == p {
      assert s[i..p] == [];
    } else {
      SpreadSkips(s, chosen, z, i + 1, p);
      Regroup([], s[i], s[i + 1..p], Spread(s, chosen, z, p));
      assert s[i..p] == [] + ([s[i]] + s[i + 1..p]);
    }
  }

  lemma {:induction false} SpreadIgnores(s: Text, chosen: set<nat>, z: char, i: nat, p: nat)
    requires p < i <= |s|
    ensures Spread(s, chosen + {p}, z, i) == Spread(s, chosen, z, i)
    decreases |s| - i
  {
    if i < |s| {
      SpreadIgnores(s, chosen, z, i + 1, p);
    }
  }

  /** One insertion before all earlier ones. */
  lemma {:induction false} SpreadOneMore(s: Text, chosen: set<nat>, z: char, pos: nat, p: nat, chars: Text)
    requires pos < p <= |s| && forall q | q in chosen :: p <= q
    requires chars == s[..p] + Spread(s, chosen, z, p)
    ensures chars[..pos] + [z] + chars[pos..] == s[..pos] + Spread(s, chosen + {pos}, z, pos)
  {
    var rest := Spread(s, chosen, z, p);
    SpreadIgnores(s, chosen, z, pos + 1, pos);
    SpreadSkips(s, chosen, z, pos + 1, p);
    assert Mark(chosen + {pos}, z, pos) == [z];
    assert Spread(s, chosen + {pos}, z, pos) == [z] + [s[pos]] + (s[pos + 1..p] + rest);
    hide Spread;
    assert chars[..pos] == s[..pos];
    assert chars[pos..] == [s[pos]] + (s[pos + 1..p] + rest);
    assert chars[..pos] + [z] + chars[pos..] == s[..pos] + ([z] + [s[pos]] + (s[pos + 1..p] + rest));
  }

  lemma {:induction false} EraseConcat(a: Text, b: Text)
    ensures Erase(a + b) == Erase(a) + Erase(b)
  {
    if a == [] {
      assert a + b == b;
    } else {
      hide Seen;
      EraseConcat(a[1..], b);
      assert (a + b)[1..] == a[1..] + b;
      assert Seen(a[0]) + (Erase(a[1..]) + Erase(b)) == Seen(a[0]) + Erase(a[1..]) + Erase(b);
    }
  }

  lemma {:induction false} EraseInvisible(t: Text)
    requires forall c | c in t :: c in ZERO_WIDTH
    ensures Erase(t) == []
  {
    if t != [] {
      EraseInvisible(t[1..]);
    }
  }

  /** A text without zero-width characters is seen as it is. */
  lemma {:induction false} EraseVisible(t: Text)
    requires forall c | c in t :: c !in {'\U{200B}', '\U{200C}', '\U{200D}', '\U{FEFF}'}
    ensures Erase(t) == t
  {
    if t != [] {
      assert t == [t[0]] + t[1..] && t[0] in t && forall c | c in t[1..] :: c in t;
      EraseVisible(t[1..]);
    }
  }

  lemma {:induction false} SpreadErases(s: Text, chosen: set<nat>, z: char, i: nat)
    requires i <= |s| && z in ZERO_WIDTH
    ensures Erase(Spread(s, chosen, z, i)) == Erase(s[i..])
    decreases |s| - i
  {
    if i < |s| {
      var rest := Spread(s, chosen, z, i + 1);
      var mark := Mark(chosen, z, i);
      SpreadErases(s, chosen, z, i + 1);
      EraseInvisible(mark);
      EraseConcat(mark + [s[i]], rest);
      EraseConcat(mark, [s[i]]);
      EraseConcat([s[i]], s[i + 1..]);
      assert s[i..] == [s[i]] + s[i + 1..];
    }
  }

  /** The chosen positions from `i` up to and including `start`. */
  ghost function Between(chosen: set<nat>, i: nat, start: nat): set<nat> {
    set p | p in chosen && i <= p <= start
  }

  lemma BetweenNext(chosen: set<nat>, i: nat, start: nat)
    requires i <= start
    ensures |Between(chosen, i, start)| == (if i in chosen then 1 else 0) + |Between(chosen, i + 1, start)|
  {
    if i in chosen {
      assert Between(chosen, i, start) == {i} + Between(chosen, i + 1, start);
    } else {
      assert Between(chosen, i, start) == Between(chosen, i + 1, start);
    }
  }

  lemma {:induction false} SpreadLength(s: Text, chosen: set<nat>, z: char, i: nat)
    requires i <= |s| && forall p | p in chosen :: p < |s|
    ensures |Spread(s, chosen, z, i)| == |s| - i + |Between(chosen, i, |s|)|
    decreases |s| - i
  {
    if i < |s| {
      SpreadLength(s, chosen, z, i + 1);
      BetweenNext(chosen, i, |s|);
    } else {
      assert Between(chosen, i, |s|) == {};
    }
  }

  lemma SliceShift(before: Text, t: Text, k: nat, n: nat)
    requires k + n <= |t|
    ensures (before + t)[|before| + k..|before| + k + n] == t[k..k + n]
  {
  }

  /** A stretch with no chosen position inside it stays in one piece, pushed by the positions up to its start. */
  lemma {:induction false} SpreadKeeps(s: Text, chosen: set<nat>, z: char, i: nat, start: nat, end: nat)
    requires i <= start < end <= |s| && forall p | p in chosen :: !(start < p < end)
    ensures var k := start - i + |Between(chosen, i, start)|;
            var t := Spread(s, chosen, z, i);
            k + (end - start) <= |t| && t[k..k + (end - start)] == s[start..end]
    decreases start - i
  {
    BetweenNext(chosen, i, start);
    var mark := Mark(chosen, z, i);
    if i < start {
      var rest := Spread(s, chosen, z, i + 1);
      assert Spread(s, chosen, z, i) == mark + [s[i]] + rest;
      hide Spread;
      SpreadKeeps(s, chosen, z, i + 1, start, end);
      var before, k, n := mark + [s[i]], start - i - 1 + |Between(chosen, i + 1, start)|, end - start;
      assert |before| + k == start - i + |Between(chosen, i, start)|;
      hide Between, Mark;
      SliceShift(before, rest, k, n);
    } else {
      assert Between(chosen, i + 1, start) == {};
      SpreadHere(s, chosen, z, i, end);
    }
  }

  lemma {:induction false} SpreadHere(s: Text, chosen: set<nat>, z: char, i: nat, end: nat)
    requires i < end <= |s| && forall p | p in chosen :: !(i < p < end)
    ensures Spread(s, chosen, z, i) == Mark(chosen, z, i) + s[i..end] + Spread(s, chosen, z, end)
  {
    SpreadSkips(s, chosen, z, i + 1, end);
    Regroup(Mark(chosen, z, i), s[i], s[i + 1..end], Spread(s, chosen, z, end));
    assert [s[i]] + s[i + 1..end] == s[i..end];
  }

  lemma Regroup(a: Text, c: char, b: Text, d: Text)
    ensures a + [c] + (b + d) == a + ([c] + b) + d
  {
  }

  // ---------------------------------------------------------------- the loops

  /** `n` distinct elements of the pool, in any order. */
  method Sample<T(==)>(pool: seq<T>, n: nat) returns (picked: seq<T>)
    requires n <= |pool| && Distinct(pool)
    ensures |picked| == n && Distinct(picked) && forall x | x in picked :: x in pool
  {
    picked := [];
    var left := pool;
    while |picked| < n
      invariant |picked| <= n && |picked| + |left| == |pool|
      invariant Distinct(left) && Distinct(picked)
      invariant forall x | x in picked :: x in pool && x !in left
      invariant forall x | x in left :: x in pool
    {
      var i :| 0 <= i < |left|;
      var x := left[i];
      assert forall j | 0 <= j < |picked| :: picked[j] in picked;
      left := left[..i] + left[i + 1..];
      picked := picked + [x];
    }
  }

  method AddZeroWidthChars(text: Text, maxChars: nat) returns (result: Text)
    requires maxChars >= 1
    ensures text == [] ==> result == []
    ensures text != [] ==> |text| < |result| <= |text| + 3 && |result| <= |text| + maxChars && text <= result
    ensures forall i | |text| <= i < |result| :: result[i] in {'\U{200B}', '\U{200C}', '\U{200D}', '\U{FEFF}'}
    ensures forall i, j | |text| <= i < j < |result| :: result[i] != result[j]
    ensures Erase(result) == Erase(text)
  {
    if text == [] {
      return text;
    }
    var most := if maxChars < 3 then maxChars else 3;
    var count :| 1 <= count <= most;
    var tail := Sample(ZERO_WIDTH, count);
    result := text + tail;
    assert forall i | |text| <= i < |result| :: result[i] == tail[i - |text|] && tail[i - |text|] in tail;
    EraseConcat(text, tail);
    EraseInvisible(tail);
  }

  method SafeInvisibleInsertPositions(n: nat, spans: seq<Span>) returns (safe: seq<nat>)
    ensures Distinct(safe)
    ensures forall p: nat :: p in safe <==> p < n && forall k | 0 <= k < |spans| :: !(spans[k].start < p < spans[k].end)
    ensures n > 0 ==> 0 in safe
  {
    safe := [];
    if spans == [] {
      safe := seq(n, i => i);
      assert forall p: nat | p < n :: safe[p] == p;
      assert forall p: nat | p < n :: p in safe by {
        forall p: nat | p < n ensures p in safe {
          assert safe[p] == p;
        }
      }
      return;
    }
    var pos := 0;
    while pos < n
      invariant pos <= n && Distinct(safe)
      invariant forall p: nat :: p in safe <==> p < pos && !Splits(spans, p)
    {
      if !Splits(spans, pos) {
        assert forall j | 0 <= j < |safe| :: safe[j] in safe;
        safe := safe + [pos];
      }
      pos := pos + 1;
    }
  }

  ghost predicate Falling(s: seq<nat>) {
    forall i, j | 0 <= i < j < |s| :: s[i] > s[j]
  }

  function InsertDown(x: nat, s: seq<nat>): (r: seq<nat>)
    requires Falling(s) && x !in s
    ensures Falling(r) && |r| == |s| + 1 && forall y :: y in r <==> y == x || y in s
  {
    if s == [] || x > s[0] then [x] + s else
      var rest := InsertDown(x, s[1..]);
      assert forall j | 0 <= j < |rest| :: rest[j] in rest;
      [s[0]] + rest
  }

  /** The library's sort, from the largest down. */
  function SortDown(s: seq<nat>): (r: seq<nat>)
    requires Distinct(s)
    ensures Falling(r) && |r| == |s| && forall y :: y in r <==> y in s
  {
    if s == [] then [] else InsertDown(s[0], SortDown(s[1..]))
  }

  /** How far a span starting at `start` is pushed. */
  ghost function Shift(positions: set<nat>, start: nat): nat {
    |Between(positions, 0, start)|
  }

  /** The span is in the varied text, in one piece. */
  ghost predicate SpanKept(before: Text, varied: Text, positions: set<nat>, span: Span) {
    var k := Shift(positions, span.start);
    && span.start <= span.end <= |before| && span.end + k <= |varied|
    && varied[span.start + k..span.end + k] == before[span.start..span.end]
  }

  /** What the chosen positions do to the text with its tail. */
  lemma {:induction false} SpreadResult(result: Text, positions: set<nat>, z: char)
    requires z in ZERO_WIDTH && forall p | p in positions :: p < |result|
    ensures var varied := Spread(result, positions, z, 0);
            Erase(varied) == Erase(result) && |varied| == |result| + |positions|
  {
    SpreadErases(result, positions, z, 0);
    assert result[0..] == result;
    SpreadLength(result, positions, z, 0);
    assert Between(positions, 0, |result|) == positions;
  }

  lemma SpansKept(result: Text, positions: set<nat>, z: char, spans: seq<Span>)
    requires SpansOf(spans, |result|)
    requires forall p | p in positions :: p < |result| && !Splits(spans, p)
    ensures forall k | 0 <= k < |spans| :: SpanKept(result, Spread(result, positions, z, 0), positions, spans[k])
  {
    var varied := Spread(result, positions, z, 0);
    SpreadLength(result, positions, z, 0);
    hide Spread;
    forall k | 0 <= k < |spans| ensures SpanKept(result, varied, positions, spans[k]) {
      var span := spans[k];
      CardinalitySubset(Between(positions, 0, span.start), Between(positions, 0, |result|));
      if span.start < span.end {
        SpreadKeeps(result, positions, z, 0, span.start, span.end);
      }
    }
  }

  lemma CardinalitySubset(a: set<nat>, b: set<nat>)
    requires a <= b
    ensures |a| <= |b|
  {
    assert b == a + (b - a);
  }

  ghost function Inserted(ordered: seq<nat>, k: nat): set<nat>
    requires k <= |ordered|
  {
    set x | x in ordered[..k]
  }

  lemma {:induction false} InsertedSize(ordered: seq<nat>, k: nat)
    requires k <= |ordered| && Falling(ordered)
    ensures |Inserted(ordered, k)| == k
  {
    if k > 0 {
      InsertedSize(ordered, k - 1);
      InsertedNext(ordered, k - 1);
      hide Inserted, Falling;
    } else {
      assert Inserted(ordered, 0) == {};
    }
  }

  lemma {:induction false} InsertedNext(ordered: seq<nat>, k: nat)
    requires k < |ordered| && Falling(ordered)
    ensures Inserted(ordered, k + 1) == Inserted(ordered, k) + {ordered[k]}
    ensures forall q | q in Inserted(ordered, k) :: ordered[k] < q && ordered[k - 1] <= q
  {
    assert ordered[..k + 1] == ordered[..k] + [ordered[k]];
  }

  /** The insertions in place, from the last position to the first, so that the earlier positions stay valid. */
  method InsertEach(result: Text, ordered: seq<nat>, zeroWidth: char) returns (chars: Text)
    requires Falling(ordered) && forall x | x in ordered :: x < |result|
    ensures chars == Spread(result, Inserted(ordered, |ordered|), zeroWidth, 0)
  {
    chars := result;
    var k := 0;
    ghost var p := |result|;
    assert Inserted(ordered, 0) == {} && Spread(result, {}, zeroWidth, p) == [];
    hide Spread;
    while k < |ordered|
      invariant k <= |ordered| && p == (if k == 0 then |result| else ordered[k - 1]) && p <= |result|
      invariant chars == result[..p] + Spread(result, Inserted(ordered, k), zeroWidth, p)
      invariant forall q | q in Inserted(ordered, k) :: p <= q
    {
      var pos := ordered[k];
      assert pos in ordered;
      InsertedNext(ordered, k);
      ghost var done := Inserted(ordered, k);
      SpreadOneMore(result, done, zeroWidth, pos, p, chars);
      chars := chars[..pos] + [zeroWidth] + chars[pos..];
      k := k + 1;
      p := pos;
    }
    SpreadSkips(result, Inserted(ordered, k), zeroWidth, 0, p);
  }

  /** The patterns are a parameter: `protect` finds the spans in the text with its tail. */
  method AddInvisibleVariation(text: Text, protect: Text -> seq<Span>)
    returns (varied: Text, ghost tailed: Text, ghost positions: set<nat>)
    requires forall t :: SpansOf(protect(t), |t|)
    ensures text == [] ==> varied == []
    ensures Erase(varied) == Erase(text)
    ensures text != [] ==> |text| + 2 <= |varied| <= |text| + 5
    ensures text != [] ==> forall p | p in positions :: p < |tailed|
                             && forall k | 0 <= k < |protect(tailed)| :: !(protect(tailed)[k].start < p < protect(tailed)[k].end)
    ensures text != [] ==> text < tailed && 1 <= |positions| <= 2 && exists z :: z in ZERO_WIDTH && varied == Spread(tailed, positions, z, 0)
    ensures text != [] ==> forall k | 0 <= k < |protect(tailed)| :: SpanKept(tailed, varied, positions, protect(tailed)[k])
  {
    hide Erase, Spread, SpanKept;
    tailed, positions := [], {};
    if text == [] {
      return text, [], {};
    }
    var result := AddZeroWidthChars(text, 5);
    tailed := result;
    var spans := protect(result);
    // Position 0 is always a candidate: there is something to insert at.
    var candidates := SafeInvisibleInsertPositions(|result|, spans);
    var chosen := Sample(candidates, if |candidates| < 2 then |candidates| else 2);
    var pick :| 0 <= pick < |ZERO_WIDTH|;
    var zeroWidth := ZERO_WIDTH[pick];
    var ordered := SortDown(chosen);
    varied := InsertEach(result, ordered, zeroWidth);
    positions := Inserted(ordered, |ordered|);
    InsertedSize(ordered, |ordered|);
    assert forall x | x in positions :: x in candidates;
    SpreadResult(result, positions, zeroWidth);
    SpansKept(result, positions, zeroWidth, spans);
  }
}
