/**
 Message entities: those parsed from the configured HTML, completed with explicit ones for raw usernames and
 links. The parser and the two patterns stay outside; their entities and match spans are arguments.
 */
module Entities {
  import opened Common

  datatype Kind = Mention | TextUrl | Url | OtherKind(name: string)

  datatype Entity = Entity(kind: Kind, offset: nat, length: nat)

  ghost predicate Spans(matches: seq<Span>) {
    forall i | 0 <= i < |matches| :: matches[i].start <= matches[i].end
  }

  predicate IsLink(e: Entity) {
    !e.kind.OtherKind?
  }

  predicate Overlaps(e: Entity, m: Span) {
    m.start < e.offset + e.length && m.end > e.offset
  }

  function SpanOf(e: Entity): Span {
    Span(e.offset, e.offset + e.length)
  }

  predicate HasExistingLink(entities: seq<Entity>, m: Span) {
    exists i :: 0 <= i < |entities| && IsLink(entities[i]) && Overlaps(entities[i], m)
  }

  function Marked(kind: Kind, m: Span): Entity
    requires m.start <= m.end
  {
    Entity(kind, m.start, m.end - m.start)
  }

  /** One of the two loops: the matches that no link touches yet, each touching those after it. */
  function Complete(entities: seq<Entity>, matches: seq<Span>, kind: Kind): seq<Entity>
    requires Spans(matches)
    decreases |matches|
  {
    if matches == [] then entities
    else
      Complete(if HasExistingLink(entities, matches[0]) then entities else entities + [Marked(kind, matches[0])],
               matches[1..], kind)
  }

  // ---------------------------------------------------------------- the sort

  predicate Before(a: Entity, b: Entity) {
    a.offset < b.offset || (a.offset == b.offset && a.length >= b.length)
  }

  ghost predicate Sorted(s: seq<Entity>) {
    forall i, j | 0 <= i < j < |s| :: Before(s[i], s[j])
  }

  function Place(e: Entity, s: seq<Entity>): seq<Entity> {
    if s == [] || Before(e, s[0]) then [e] + s else [s[0]] + Place(e, s[1..])
  }

  /** The library's sort by offset, longest first. */
  function SortEntities(s: seq<Entity>): seq<Entity> {
    if s == [] then [] else Place(s[0], SortEntities(s[1..]))
  }

  method BuildTelegramEntities(text: string, parsed: seq<Entity>, usernames: seq<Span>, urls: seq<Span>)
    returns (result: Option<seq<Entity>>)
    requires Spans(usernames) && Spans(urls)
    ensures var all := if text == "" then [] else Complete(Complete(parsed, usernames, Mention), urls, Url);
            result == if all == [] then None else Some(SortEntities(all))
  {
    if text == "" {
      return None;
    }
    var entities := parsed;
    var i := 0;
    while i < |usernames|
      invariant i <= |usernames| && Complete(parsed, usernames, Mention) == Complete(entities, usernames[i..], Mention)
    {
      assert usernames[i..][1..] == usernames[i + 1..];
      if !HasExistingLink(entities, usernames[i]) {
        entities := entities + [Marked(Mention, usernames[i])];
      }
      i := i + 1;
    }
    ghost var mentioned := entities;
    i := 0;
    while i < |urls|
      invariant i <= |urls| && Complete(mentioned, urls, Url) == Complete(entities, urls[i..], Url)
    {
      assert urls[i..][1..] == urls[i + 1..];
      if !HasExistingLink(entities, urls[i]) {
        entities := entities + [Marked(Url, urls[i])];
      }
      i := i + 1;
    }
    assert entities != [] ==> SortEntities(entities) != [];
    return if entities == [] then None else Some(SortEntities(entities));
  }

  // ---------------------------------------------------------------- what the loops add

  /** The entities from `from` on are links, and overlap no other link. */
  ghost predicate Apart(s: seq<Entity>, from: nat) {
    && (forall i | from <= i < |s| :: IsLink(s[i]))
    && (forall i, j | from <= i < |s| && 0 <= j < |s| && i != j && IsLink(s[j]) :: !Overlaps(s[j], SpanOf(s[i])))
  }

  /** The entities so far are kept in place, the added ones are matches, and they touch no other link. */
  lemma {:induction false} CompleteKeeps(entities: seq<Entity>, matches: seq<Span>, kind: Kind, from: nat)
    requires Spans(matches) && !kind.OtherKind? && from <= |entities| && Apart(entities, from)
    ensures var r := Complete(entities, matches, kind);
            && entities <= r && Apart(r, from)
            && forall i | |entities| <= i < |r| :: exists k :: 0 <= k < |matches| && r[i] == Marked(kind, matches[k])
    decreases |matches|
  {
    if matches != [] {
      var next := if HasExistingLink(entities, matches[0]) then entities else entities + [Marked(kind, matches[0])];
      assert Apart(next, from);
      CompleteKeeps(next, matches[1..], kind, from);
      var r := Complete(entities, matches, kind);
      forall i | |entities| <= i < |r| ensures exists k :: 0 <= k < |matches| && r[i] == Marked(kind, matches[k]) {
        if i < |next| {
          assert r[i] == Marked(kind, matches[0]);
        } else {
          var k :| 0 <= k < |matches[1..]| && r[i] == Marked(kind, matches[1..][k]);
          assert r[i] == Marked(kind, matches[k + 1]);
        }
      }
    }
  }

  /** Every match that is not empty is touched by a link afterwards. */
  lemma {:induction false} CompleteCovers(entities: seq<Entity>, matches: seq<Span>, kind: Kind, k: nat)
    requires Spans(matches) && !kind.OtherKind? && k < |matches| && matches[k].start < matches[k].end
    ensures HasExistingLink(Complete(entities, matches, kind), matches[k])
    decreases |matches|
  {
    var next := if HasExistingLink(entities, matches[0]) then entities else entities + [Marked(kind, matches[0])];
    if k == 0 {
      assert HasExistingLink(next, matches[0]) by {
        assert next == entities || (next[|entities|] == Marked(kind, matches[0]) && IsLink(next[|entities|]));
      }
      StaysLinked(next, matches[1..], kind, matches[0]);
    } else {
      CompleteCovers(next, matches[1..], kind, k - 1);
    }
  }

  lemma {:induction false} StaysLinked(entities: seq<Entity>, matches: seq<Span>, kind: Kind, m: Span)
    requires Spans(matches) && HasExistingLink(entities, m)
    ensures HasExistingLink(Complete(entities, matches, kind), m)
    decreases |matches|
  {
    if matches != [] {
      var next := if HasExistingLink(entities, matches[0]) then entities else entities + [Marked(kind, matches[0])];
      var i :| 0 <= i < |entities| && IsLink(entities[i]) && Overlaps(entities[i], m);
      assert next[i] == entities[i];
      StaysLinked(next, matches[1..], kind, m);
    }
  }

  // ---------------------------------------------------------------- what the sort does

  function WithKey(s: seq<Entity>, offset: nat, length: nat): seq<Entity> {
    if s == [] then []
    else (if s[0].offset == offset && s[0].length == length then [s[0]] else []) + WithKey(s[1..], offset, length)
  }

  lemma {:induction false} PlaceSorts(e: Entity, s: seq<Entity>)
    requires Sorted(s)
    ensures Sorted(Place(e, s)) && multiset(Place(e, s)) == multiset{e} + multiset(s)
  {
    if s != [] && !Before(e, s[0]) {
      PlaceSorts(e, s[1..]);
      assert s == [s[0]] + s[1..];
      var rest := Place(e, s[1..]);
      forall j | 0 <= j < |rest| ensures Before(s[0], rest[j]) {
        assert rest[j] in multiset(rest);
        assert rest[j] == e || rest[j] in s[1..];
      }
    }
  }

  lemma {:induction false} SortSorts(s: seq<Entity>)
    ensures Sorted(SortEntities(s)) && multiset(SortEntities(s)) == multiset(s)
  {
    if s != [] {
      SortSorts(s[1..]);
      PlaceSorts(s[0], SortEntities(s[1..]));
      assert s == [s[0]] + s[1..];
    }
  }

  lemma {:induction false} PlaceIsStable(e: Entity, s: seq<Entity>, offset: nat, length: nat)
    ensures WithKey(Place(e, s), offset, length) == WithKey([e], offset, length) + WithKey(s, offset, length)
  {
    assert WithKey([e], offset, length) == if e.offset == offset && e.length == length then [e] else [] by {
      assert [e][1..] == [];
    }
    if s == [] || Before(e, s[0]) {
      assert ([e] + s)[1..] == s;
    } else {
      PlaceIsStable(e, s[1..], offset, length);
      assert ([s[0]] + Place(e, s[1..]))[1..] == Place(e, s[1..]);
    }
  }

  /** Entities with the same offset and length stay in the order they had. */
  lemma {:induction false} SortIsStable(s: seq<Entity>, offset: nat, length: nat)
    ensures WithKey(SortEntities(s), offset, length) == WithKey(s, offset, length)
  {
    if s != [] {
      SortIsStable(s[1..], offset, length);
      PlaceIsStable(s[0], SortEntities(s[1..]), offset, length);
      PlaceIsStable(s[0], [], offset, length);
      hide Place;
      assert [s[0]][1..] == [];
    }
  }

  // ---------------------------------------------------------------- the whole completion

  ghost predicate Link(e: Entity) {
    e.kind == Mention || e.kind == TextUrl || e.kind == Url
  }

  /** No link reaches into the match. */
  ghost predicate Free(entities: seq<Entity>, m: Span) {
    forall i | 0 <= i < |entities| && Link(entities[i]) :: entities[i].offset + entities[i].length <= m.start || m.end <= entities[i].offset
  }

  lemma FreeExactly(entities: seq<Entity>, m: Span)
    ensures Free(entities, m) <==> !HasExistingLink(entities, m)
  {
  }

  /** The entity marks one of the matches, from its start to its end. */
  ghost predicate Marks(e: Entity, kind: Kind, matches: seq<Span>) {
    e.kind == kind && exists k :: 0 <= k < |matches| && e.offset == matches[k].start && e.offset + e.length == matches[k].end
  }

  /** Completion keeps every parsed entity and adds only usernames and links that overlap no other link; it
      leaves no match that is not empty without a link; the result is sorted. */
  lemma CompletionKeepsAndCovers(parsed: seq<Entity>, usernames: seq<Span>, urls: seq<Span>)
    requires Spans(usernames) && Spans(urls)
    ensures var all := Complete(Complete(parsed, usernames, Mention), urls, Url);
            var s := SortEntities(all);
            && multiset(s) == multiset(all) && parsed <= all
            && (forall i, j | 0 <= i < j < |s| :: s[i].offset < s[j].offset || (s[i].offset == s[j].offset && s[i].length >= s[j].length))
            && (forall i | |parsed| <= i < |all| :: Marks(all[i], Mention, usernames) || Marks(all[i], Url, urls))
            && (forall i, j | |parsed| <= i < |all| && 0 <= j < |all| && i != j && Link(all[j]) ::
                  all[j].offset + all[j].length <= all[i].offset || all[i].offset + all[i].length <= all[j].offset)
            && (forall k | 0 <= k < |usernames| && usernames[k].start < usernames[k].end :: !Free(s, usernames[k]))
            && (forall k | 0 <= k < |urls| && urls[k].start < urls[k].end :: !Free(s, urls[k]))
  {
    var mentioned := Complete(parsed, usernames, Mention);
    var all := Complete(mentioned, urls, Url);
    CompleteKeeps(parsed, usernames, Mention, |parsed|);
    CompleteKeeps(mentioned, urls, Url, |parsed|);
    SortSorts(all);
    var s := SortEntities(all);
    AddedApart(all, |parsed|);
    hide SortEntities, Complete, Apart, Free, HasExistingLink;
    forall k | 0 <= k < |usernames| && usernames[k].start < usernames[k].end ensures !Free(s, usernames[k]) {
      CompleteCovers(parsed, usernames, Mention, k);
      StaysLinked(mentioned, urls, Url, usernames[k]);
      SameLinks(all, s, usernames[k]);
      FreeExactly(s, usernames[k]);
    }
    forall k | 0 <= k < |urls| && urls[k].start < urls[k].end ensures !Free(s, urls[k]) {
      CompleteCovers(mentioned, urls, Url, k);
      SameLinks(all, s, urls[k]);
      FreeExactly(s, urls[k]);
    }
    assert forall i | |parsed| <= i < |mentioned| :: all[i] == mentioned[i];
  }

  lemma AddedApart(all: seq<Entity>, from: nat)
    requires Apart(all, from)
    ensures forall i, j | from <= i < |all| && 0 <= j < |all| && i != j && Link(all[j]) ::
              all[j].offset + all[j].length <= all[i].offset || all[i].offset + all[i].length <= all[j].offset
  {
    assert forall j | 0 <= j < |all| && Link(all[j]) :: IsLink(all[j]);
  }

  lemma SameLinks(s: seq<Entity>, s': seq<Entity>, m: Span)
    requires multiset(s) == multiset(s') && HasExistingLink(s, m)
    ensures HasExistingLink(s', m)
  {
    var i :| 0 <= i < |s| && IsLink(s[i]) && Overlaps(s[i], m);
    assert s[i] in multiset(s');
  }

  // ---------------------------------------------------------------- which matches are added

  /** The matches of one pattern do not overlap each other. */
  ghost predicate Disjoint(matches: seq<Span>) {
    forall i, j | 0 <= i < j < |matches| :: matches[i].end <= matches[j].start
  }

  ghost function Unlinked(entities: seq<Entity>, matches: seq<Span>): (r: seq<Span>)
    requires Spans(matches)
    ensures Spans(r)
  {
    if matches == [] then []
    else
      assert Spans(matches[1..]);
      (if Free(entities, matches[0]) then [matches[0]] else []) + Unlinked(entities, matches[1..])
  }

  ghost function MarkAll(kind: Kind, matches: seq<Span>): seq<Entity>
    requires Spans(matches)
  {
    if matches == [] then []
    else [Entity(kind, matches[0].start, matches[0].end - matches[0].start)] + MarkAll(kind, matches[1..])
  }

  /** For the matches of a pattern, which come in order and apart, the loop adds exactly those that no earlier
      link touches: the entities it adds itself never shut out a later match. */
  lemma {:induction false} CompleteIsFilter(entities: seq<Entity>, matches: seq<Span>, kind: Kind)
    requires Spans(matches) && Disjoint(matches)
    ensures Complete(entities, matches, kind) == entities + MarkAll(kind, Unlinked(entities, matches))
    decreases |matches|
  {
    if matches == [] {
      assert entities + [] == entities;
      return;
    }
    var m, rest := matches[0], matches[1..];
    assert Spans(rest) && Disjoint(rest) && forall i | 0 <= i < |rest| :: m.end <= rest[i].start;
    var later := Unlinked(entities, rest);
    FreeExactly(entities, m);
    if HasExistingLink(entities, m) {
      CompleteIsFilter(entities, rest, kind);
      assert [] + later == later;
      return;
    }
    var e := Marked(kind, m);
    CompleteIsFilter(entities + [e], rest, kind);
    UnlinkedAfter(entities, e, rest);
    hide HasExistingLink, Spans, Disjoint, Free;
    MarkAllCons(kind, m, later);
    hide MarkAll;
    Regroup(entities, e, MarkAll(kind, later));
  }

  lemma Regroup(s: seq<Entity>, e: Entity, t: seq<Entity>)
    ensures s + [e] + t == s + ([e] + t)
  {
  }

  lemma MarkAllCons(kind: Kind, m: Span, later: seq<Span>)
    requires m.start <= m.end && Spans(later)
    ensures Spans([m] + later) && MarkAll(kind, [m] + later) == [Marked(kind, m)] + MarkAll(kind, later)
  {
    assert ([m] + later)[1..] == later;
  }

  lemma {:induction false} UnlinkedAfter(entities: seq<Entity>, e: Entity, matches: seq<Span>)
    requires Spans(matches) && forall i | 0 <= i < |matches| :: e.offset + e.length <= matches[i].start
    ensures Unlinked(entities + [e], matches) == Unlinked(entities, matches)
  {
    if matches != [] {
      UnlinkedAfter(entities, e, matches[1..]);
      FreeAfter(entities, e, matches[0]);
      hide Free;
    }
  }

  lemma FreeAfter(entities: seq<Entity>, e: Entity, m: Span)
    requires e.offset + e.length <= m.start
    ensures Free(entities + [e], m) <==> Free(entities, m)
  {
    assert forall i | 0 <= i < |entities| :: (entities + [e])[i] == entities[i];
  }
}
