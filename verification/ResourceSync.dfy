/**
 Full synchronisation of an account's dialogs into its resource rows. The table allows one row per account
 and peer id, so the rows of the account are a map by peer id.
 */
module ResourceSync {
  import opened Common

  datatype PeerType = User | Chat | Supergroup | Channel

  /** What is read off a recognised entity. */
  datatype Peer = Peer(
    id: int, peerType: PeerType, accessHash: Option<int>, title: string, username: Option<string>,
    description: Option<string>, muted: bool, verified: bool, scam: bool, participants: Option<int>)

  /** Empty entities and those of no known type are skipped; reading a broken one raises. */
  datatype Dialog = Recognised(peer: Peer) | Skipped | Broken(error: string)

  datatype Resource = Resource(
    peerType: PeerType, accessHash: Option<int>, title: Option<string>, username: Option<string>,
    description: Option<string>, isMuted: bool, isArchived: bool, isVerified: bool, isScam: bool,
    participants: Option<int>, isActive: bool, lastSync: int)

  type Rows = map<int, Resource>

  datatype Report = Report(synced: nat, created: nat, updated: nat, deleted: nat, failed: nat, error: Option<string>)

  function RowOf(p: Peer, now: int): Resource {
    Resource(p.peerType, p.accessHash, Some(p.title), p.username, p.description, p.muted, false, p.verified, p.scam,
             p.participants, true, now)
  }

  predicate Differs(row: Resource, p: Peer) {
    || row.title != Some(p.title) || row.username != p.username || row.description != p.description
    || row.isVerified != p.verified || row.isScam != p.scam
  }

  // ---------------------------------------------------------------- the outcome, declaratively

  /** The recognised peers by id. */
  function Peers(dialogs: seq<Dialog>): map<int, Peer> {
    if dialogs == [] then map[]
    else
      var last := dialogs[|dialogs| - 1];
      var rest := Peers(dialogs[..|dialogs| - 1]);
      if last.Recognised? then rest[last.peer.id := last.peer] else rest
  }

  ghost predicate DistinctIds(dialogs: seq<Dialog>) {
    forall i, j | 0 <= i < j < |dialogs| && dialogs[i].Recognised? && dialogs[j].Recognised? ::
      dialogs[i].peer.id != dialogs[j].peer.id
  }

  function Failures(dialogs: seq<Dialog>): (n: nat)
    ensures n <= |dialogs|
  {
    if dialogs == [] then 0
    else (if dialogs[|dialogs| - 1].Broken? then 1 else 0) + Failures(dialogs[..|dialogs| - 1])
  }

  /** The first error with a text, "" if there is none. */
  function FirstError(dialogs: seq<Dialog>): string {
    if dialogs == [] then ""
    else
      var before := FirstError(dialogs[..|dialogs| - 1]);
      var last := dialogs[|dialogs| - 1];
      if before == "" && last.Broken? then last.error else before
  }

  /** The rows of peers the table did not have. */
  function Fresh(rows: Rows, peers: map<int, Peer>, now: int): Rows {
    map id | id in peers && id !in rows :: RowOf(peers[id], now)
  }

  function Altered(rows: Rows, peers: map<int, Peer>): set<int> {
    set id | id in peers && id in rows && (Differs(rows[id], peers[id]) || !rows[id].isActive)
  }

  function Gone(rows: Rows, peers: map<int, Peer>): set<int> {
    set id | id in rows && id !in peers && rows[id].isActive
  }

  function Synced(rows: Rows, peers: map<int, Peer>, now: int): Rows {
    map id | id in rows.Keys + peers.Keys ::
      if id in peers then RowOf(peers[id], now) else rows[id].(isActive := false)
  }

  /** What a committed sync leaves and reports. */
  function Outcome(rows: Rows, dialogs: seq<Dialog>, now: int): (Rows, Report) {
    var peers := Peers(dialogs);
    var failed := Failures(dialogs);
    var synced := |dialogs| - failed;
    (Synced(rows, peers, now),
     Report(synced, |peers.Keys - rows.Keys|, |Altered(rows, peers)|, |Gone(rows, peers)|, failed,
            if synced == 0 && failed > 0 && FirstError(dialogs) != "" then Some(FirstError(dialogs)) else None))
  }

  const UNIQUE_VIOLATION := "unique_account_peer"

  // ---------------------------------------------------------------- the loops

  datatype Verdict = New | Updated | Unchanged | Failed(error: string)

  type Added = seq<(int, Resource)>

  /** The unique constraint on account and peer id, checked when the session commits. */
  predicate Commits(rows: Rows, added: Added) {
    && (forall i | 0 <= i < |added| :: added[i].0 !in rows)
    && (forall i, j | 0 <= i < j < |added| :: added[i].0 != added[j].0)
  }

  /** The session's pending changes: rows loaded and written, those not met yet, and rows added. */
  datatype Work = Work(rows: Rows, existing: set<int>, added: Added)

  function VerdictOn(w: Work, d: Dialog): Verdict
    requires w.existing <= w.rows.Keys
  {
    match d
    case Broken(error) => Failed(error)
    case Skipped => Unchanged
    case Recognised(p) =>
      if p.id !in w.existing then New
      else if Differs(w.rows[p.id], p) || !w.rows[p.id].isActive then Updated else Unchanged
  }

  function AfterPeer(w: Work, d: Dialog, now: int): (w': Work)
    requires w.existing <= w.rows.Keys
    ensures w'.existing <= w'.rows.Keys == w.rows.Keys
  {
    if !d.Recognised? then w
    else if d.peer.id in w.existing
    then Work(w.rows[d.peer.id := RowOf(d.peer, now)], w.existing - {d.peer.id}, w.added)
    else w.(added := w.added + [(d.peer.id, RowOf(d.peer, now))])
  }

  method Any<T>(ids: set<T>) returns (id: T)
    requires ids != {}
    ensures id in ids
  {
    id :| id in ids;
  }

  class SyncSession {
    var rows: Rows
    var existing: set<int>
    var added: Added

    constructor (rows: Rows)
      ensures Contents() == Work(rows, rows.Keys, [])
    {
      this.rows, existing, added := rows, rows.Keys, [];
    }

    function Contents(): Work
      reads this
    {
      Work(rows, existing, added)
    }

    method SyncPeer(dialog: Dialog, now: int) returns (r: Verdict)
      requires existing <= rows.Keys
      modifies this
      ensures r == VerdictOn(old(Contents()), dialog) && Contents() == AfterPeer(old(Contents()), dialog, now)
    {
      if dialog.Broken? {
        return Failed(dialog.error);
      }
      if dialog.Skipped? {
        return Unchanged;
      }
      var p := dialog.peer;
      if p.id in existing {
        var resource := rows[p.id];
        existing := existing - {p.id};
        var changed := Differs(resource, p) || !resource.isActive;
        rows := rows[p.id := RowOf(p, now)];
        return if changed then Updated else Unchanged;
      }
      added := added + [(p.id, RowOf(p, now))];
      return New;
    }

    method SyncDialogs(dialogs: seq<Dialog>, now: int) returns (result: Report, firstError: string)
      requires existing == rows.Keys && added == []
      modifies this
      ensures existing <= rows.Keys && Counted(old(rows), dialogs, now, Contents(), result, firstError)
    {
      ghost var start := rows;
      result, firstError := Report(0, 0, 0, 0, 0, None), "";
      Started(start, dialogs, now);
      hide Counted, Tally, DistinctIds, VerdictOn, AfterPeer, RowOf;
      var i := 0;
      while i < |dialogs|
        invariant i <= |dialogs| && existing <= rows.Keys
        invariant Counted(start, dialogs[..i], now, Contents(), result, firstError)
      {
        var dialog := dialogs[i];
        assert dialogs[..i + 1] == dialogs[..i] + [dialog];
        CountedStep(start, dialogs[..i], dialog, now, Contents(), result, firstError);
        var verdict := SyncPeer(dialog, now);
        if verdict.Failed? && firstError == "" {
          firstError := verdict.error;
        }
        result := Tally(result, verdict);
        i := i + 1;
      }
      assert dialogs[..i] == dialogs;
    }

    /** The rows no dialog was met for. */
    method Deactivate() returns (deleted: nat)
      requires existing <= rows.Keys
      modifies this`rows
      ensures rows == Deactivated(old(rows), existing) && deleted == |ActiveIn(old(rows), existing)|
    {
      deleted := 0;
      var left := existing;
      assert rows == Deactivated(rows, {}) && ActiveIn(rows, {}) == {};
      ghost var before, met := rows, {};
      while left != {}
        invariant left <= existing <= rows.Keys && before.Keys == rows.Keys
        invariant met == existing - left
        invariant rows == Deactivated(before, met) && deleted == |ActiveIn(before, met)|
      {
        var id := Any(left);
        DeactivatedNext(before, met, id);
        left := left - {id};
        met := met + {id};
        if rows[id].isActive {
          rows := rows[id := rows[id].(isActive := false)];
          deleted := deleted + 1;
        }
      }
      assert met == existing;
    }
  }

  lemma DeactivatedNext(rows: Rows, met: set<int>, id: int)
    requires id in rows && id !in met
    ensures var before := Deactivated(rows, met);
            && before.Keys == rows.Keys && before[id] == rows[id]
            && Deactivated(rows, met + {id}) == before[id := before[id].(isActive := false)]
            && |ActiveIn(rows, met + {id})| == |ActiveIn(rows, met)| + (if before[id].isActive then 1 else 0)
            && (!before[id].isActive ==> Deactivated(rows, met + {id}) == before)
  {
    assert ActiveIn(rows, met + {id}) == ActiveIn(rows, met) + (if rows[id].isActive then {id} else {});
  }

  function Deactivated(rows: Rows, ids: set<int>): Rows {
    map id | id in rows :: if id in ids then rows[id].(isActive := false) else rows[id]
  }

  function ActiveIn(rows: Rows, ids: set<int>): set<int> {
    set id | id in ids && id in rows && rows[id].isActive
  }

  function Inserted(added: Added): Rows {
    if added == [] then map[] else Inserted(added[..|added| - 1])[added[|added| - 1].0 := added[|added| - 1].1]
  }

  /** The rows the table had, as the peers met so far leave them. */
  function Touched(rows: Rows, peers: map<int, Peer>, now: int): Rows {
    map id | id in rows :: if id in peers then RowOf(peers[id], now) else rows[id]
  }

  /** What the session holds after a stretch of the dialogs. */
  ghost predicate Progress(rows: Rows, dialogs: seq<Dialog>, now: int, w: Work, created: int, updated: int) {
    var peers := Peers(dialogs);
    && w.rows.Keys == rows.Keys && w.existing <= rows.Keys
    && (Commits(rows, w.added) <==> DistinctIds(dialogs))
    && (DistinctIds(dialogs) ==>
          && w.existing == rows.Keys - peers.Keys && w.rows == Touched(rows, peers, now)
          && Inserted(w.added) == Fresh(rows, peers, now)
          && created == |peers.Keys - rows.Keys| && updated == |Altered(rows, peers)|)
  }

  class ResourceTable {
    var rows: Rows

    constructor (rows: Rows)
      ensures this.rows == rows
    {
      this.rows := rows;
    }

    /** The outcome is committed exactly when no two recognised dialogs share an id; otherwise the
        constraint fails the commit, the rows stay as they were and the report carries only the error. */
    method FullSync(dialogs: seq<Dialog>, now: int) returns (result: Report)
      modifies this
      ensures DistinctIds(dialogs) ==> (rows, result) == Outcome(old(rows), dialogs, now)
      ensures !DistinctIds(dialogs) ==> rows == old(rows) && result == Report(0, 0, 0, 0, 0, Some(UNIQUE_VIOLATION))
    {
      var session := new SyncSession(rows);
      var firstError;
      result, firstError := session.SyncDialogs(dialogs, now);
      Committed(rows, dialogs, now, session.Contents(), result, firstError);
      hide Counted, DistinctIds, Outcome, Commits, Deactivated, ActiveIn, Inserted, RowOf;
      var deleted := session.Deactivate();
      result := result.(deleted := deleted);
      if !Commits(session.rows, session.added) {
        return Report(0, 0, 0, 0, 0, Some(UNIQUE_VIOLATION));
      }
      rows := session.rows + Inserted(session.added);
      if result.synced == 0 && result.failed > 0 && firstError != "" {
        result := result.(error := Some(firstError));
      }
    }
  }

  function Tally(t: Report, v: Verdict): Report {
    match v
    case Failed(_) => t.(failed := t.failed + 1)
    case New => t.(synced := t.synced + 1, created := t.created + 1)
    case Updated => t.(synced := t.synced + 1, updated := t.updated + 1)
    case Unchanged => t.(synced := t.synced + 1)
  }

  ghost predicate Counted(rows: Rows, dialogs: seq<Dialog>, now: int, w: Work, t: Report, firstError: string) {
    && Progress(rows, dialogs, now, w, t.created, t.updated)
    && t.failed == Failures(dialogs) && t.synced == |dialogs| - t.failed && t.deleted == 0 && t.error == None
    && firstError == FirstError(dialogs)
  }

  lemma Started(rows: Rows, dialogs: seq<Dialog>, now: int)
    ensures Counted(rows, dialogs[..0], now, Work(rows, rows.Keys, []), Report(0, 0, 0, 0, 0, None), "")
  {
    assert dialogs[..0] == [];
    assert Fresh(rows, map[], now) == map[] && Altered(rows, map[]) == {} && Touched(rows, map[], now) == rows;
    assert Peers(dialogs[..0]).Keys - rows.Keys == {};
  }

  lemma {:induction false} CountedStep(rows: Rows, dialogs: seq<Dialog>, d: Dialog, now: int, w: Work, t: Report, firstError: string)
    requires Counted(rows, dialogs, now, w, t, firstError)
    ensures w.existing <= w.rows.Keys
    ensures var v := VerdictOn(w, d);
            Counted(rows, dialogs + [d], now, AfterPeer(w, d, now), Tally(t, v), if v.Failed? && firstError == "" then v.error else firstError)
  {
    hide Progress, AfterPeer, Failures, FirstError, Peers, Differs;
    PeersNext(dialogs, d);
    ProgressStep(rows, dialogs, d, now, w, t.created, t.updated);
  }

  lemma PeersNext(dialogs: seq<Dialog>, d: Dialog)
    ensures Peers(dialogs + [d]) == if d.Recognised? then Peers(dialogs)[d.peer.id := d.peer] else Peers(dialogs)
    ensures Failures(dialogs + [d]) == Failures(dialogs) + (if d.Broken? then 1 else 0)
    ensures FirstError(dialogs + [d]) == if FirstError(dialogs) == "" && d.Broken? then d.error else FirstError(dialogs)
  {
    assert (dialogs + [d])[..|dialogs|] == dialogs;
  }

  lemma {:induction false} PeersAre(dialogs: seq<Dialog>, id: int)
    ensures id in Peers(dialogs) <==> exists k :: 0 <= k < |dialogs| && dialogs[k].Recognised? && dialogs[k].peer.id == id
    ensures id in Peers(dialogs) ==> Recognised(Peers(dialogs)[id]) in dialogs && Peers(dialogs)[id].id == id
  {
    if dialogs != [] {
      PeersAre(dialogs[..|dialogs| - 1], id);
      var last := dialogs[|dialogs| - 1];
      assert dialogs == dialogs[..|dialogs| - 1] + [last];
    }
  }

  lemma DistinctNext(dialogs: seq<Dialog>, d: Dialog)
    ensures DistinctIds(dialogs + [d]) <==> DistinctIds(dialogs) && (d.Recognised? ==> d.peer.id !in Peers(dialogs))
  {
    if d.Recognised? {
      PeersAre(dialogs, d.peer.id);
    }
    var all := dialogs + [d];
    assert all[|dialogs|] == d && forall i | 0 <= i < |dialogs| :: all[i] == dialogs[i];
  }

  lemma ProgressStep(rows: Rows, dialogs: seq<Dialog>, d: Dialog, now: int, w: Work, created: int, updated: int)
    requires Progress(rows, dialogs, now, w, created, updated)
    ensures w.existing <= w.rows.Keys
    ensures var v := VerdictOn(w, d);
            Progress(rows, dialogs + [d], now, AfterPeer(w, d, now),
                     created + (if v == New then 1 else 0), updated + (if v == Updated then 1 else 0))
  {
    if d.Recognised? {
      if d.peer.id in w.existing {
        KnownStep(rows, dialogs, d, now, w, created, updated);
      } else {
        AddedStep(rows, dialogs, d, now, w, created, updated);
      }
      hide Progress;
      return;
    }
    PeersNext(dialogs, d);
    DistinctNext(dialogs, d);
    hide Peers, DistinctIds, Differs, RowOf, Inserted, Fresh, Altered, Touched, Commits;
  }

  lemma KnownStep(rows: Rows, dialogs: seq<Dialog>, d: Dialog, now: int, w: Work, created: int, updated: int)
    requires Progress(rows, dialogs, now, w, created, updated) && d.Recognised? && d.peer.id in w.existing
    ensures var p := d.peer;
            Progress(rows, dialogs + [d], now, Work(w.rows[p.id := RowOf(p, now)], w.existing - {p.id}, w.added),
                     created, updated + (if Differs(w.rows[p.id], p) || !w.rows[p.id].isActive then 1 else 0))
  {
    PeersNext(dialogs, d);
    DistinctNext(dialogs, d);
    hide Peers, DistinctIds, Differs, RowOf, Inserted, Fresh, Altered, Touched, Commits;
    if DistinctIds(dialogs) {
      KnownPeer(rows, Peers(dialogs), d.peer, now);
      AlteredNext(rows, Peers(dialogs), d.peer);
    }
  }

  lemma AddedStep(rows: Rows, dialogs: seq<Dialog>, d: Dialog, now: int, w: Work, created: int, updated: int)
    requires Progress(rows, dialogs, now, w, created, updated) && d.Recognised? && d.peer.id !in w.existing
    ensures var e := (d.peer.id, RowOf(d.peer, now));
            Progress(rows, dialogs + [d], now, w.(added := w.added + [e]), created + 1, updated)
  {
    PeersNext(dialogs, d);
    DistinctNext(dialogs, d);
    var e := (d.peer.id, RowOf(d.peer, now));
    CommitsNext(rows, w.added, e);
    InsertedNext(w.added, e);
    hide Peers, DistinctIds, Differs, RowOf, Inserted, Fresh, Altered, Touched, Commits;
    if DistinctIds(dialogs) {
      if d.peer.id in Peers(dialogs) {
        MetAgain(rows, Peers(dialogs), d.peer, now, w.added);
      } else {
        NewPeer(rows, Peers(dialogs), d.peer, now);
        NotAdded(rows, Peers(dialogs), d.peer, now, w.added);
      }
    }
  }

  lemma KnownPeer(rows: Rows, peers: map<int, Peer>, p: Peer, now: int)
    requires p.id in rows && p.id !in peers
    ensures var more := peers[p.id := p];
            && Fresh(rows, more, now) == Fresh(rows, peers, now)
            && Touched(rows, more, now) == Touched(rows, peers, now)[p.id := RowOf(p, now)]
            && Touched(rows, peers, now)[p.id] == rows[p.id]
            && rows.Keys - more.Keys == rows.Keys - peers.Keys - {p.id}
            && more.Keys - rows.Keys == peers.Keys - rows.Keys
  {
    hide RowOf;
  }

  lemma AlteredNext(rows: Rows, peers: map<int, Peer>, p: Peer)
    requires p.id in rows && p.id !in peers
    ensures |Altered(rows, peers[p.id := p])|
         == |Altered(rows, peers)| + (if Differs(rows[p.id], p) || !rows[p.id].isActive then 1 else 0)
  {
    hide Differs;
    var more := peers[p.id := p];
    assert p.id !in Altered(rows, peers);
    assert forall id | id != p.id :: id in Altered(rows, more) <==> id in Altered(rows, peers);
    assert p.id in Altered(rows, more) <==> Differs(rows[p.id], p) || !rows[p.id].isActive;
    hide Altered;
    assert Altered(rows, more) == Altered(rows, peers) + (if p.id in Altered(rows, more) then {p.id} else {});
  }

  lemma NewPeer(rows: Rows, peers: map<int, Peer>, p: Peer, now: int)
    requires p.id !in rows && p.id !in peers
    ensures var more := peers[p.id := p];
            && Fresh(rows, more, now) == Fresh(rows, peers, now)[p.id := RowOf(p, now)]
            && Touched(rows, more, now) == Touched(rows, peers, now)
            && rows.Keys - more.Keys == rows.Keys - peers.Keys
            && more.Keys - rows.Keys == peers.Keys - rows.Keys + {p.id}
            && Altered(rows, more) == Altered(rows, peers)
  {
    hide Differs, RowOf;
  }

  lemma CommitsNext(rows: Rows, added: Added, e: (int, Resource))
    ensures Commits(rows, added + [e]) <==> Commits(rows, added) && e.0 !in rows && forall f | f in added :: f.0 != e.0
  {
    var all := added + [e];
    assert all[|added|] == e && forall i | 0 <= i < |added| :: all[i] == added[i];
    assert forall i | 0 <= i < |added| :: added[i] in added;
  }

  lemma InsertedNext(added: Added, e: (int, Resource))
    ensures Inserted(added + [e]) == Inserted(added)[e.0 := e.1]
  {
    assert (added + [e])[..|added|] == added;
  }

  lemma {:induction false} InsertedKeys(added: Added, id: int)
    ensures id in Inserted(added) <==> exists e :: e in added && e.0 == id
  {
    if added != [] {
      var last := added[|added| - 1];
      InsertedKeys(added[..|added| - 1], id);
      assert added == added[..|added| - 1] + [last];
    }
  }

  /** A peer met twice is added although the table has, or the session already adds, its row. */
  lemma MetAgain(rows: Rows, peers: map<int, Peer>, p: Peer, now: int, added: Added)
    requires p.id in peers && Inserted(added) == Fresh(rows, peers, now)
    ensures p.id in rows || exists f :: f in added && f.0 == p.id
  {
    InsertedKeys(added, p.id);
  }

  lemma NotAdded(rows: Rows, peers: map<int, Peer>, p: Peer, now: int, added: Added)
    requires p.id !in peers && Inserted(added) == Fresh(rows, peers, now)
    ensures forall f | f in added :: f.0 != p.id
  {
    InsertedKeys(added, p.id);
  }

  ghost predicate Fits(rows: Rows, dialogs: seq<Dialog>, now: int, w: Work, t: Report, firstError: string)
    requires w.existing <= w.rows.Keys
  {
    && Commits(Deactivated(w.rows, w.existing), w.added) == DistinctIds(dialogs)
    && (DistinctIds(dialogs) ==>
          && Outcome(rows, dialogs, now).0 == Deactivated(w.rows, w.existing) + Inserted(w.added)
          && Outcome(rows, dialogs, now).1
          == t.(deleted := |ActiveIn(w.rows, w.existing)|,
                error := if t.synced == 0 && t.failed > 0 && firstError != "" then Some(firstError) else None))
  }

  lemma Committed(rows: Rows, dialogs: seq<Dialog>, now: int, w: Work, t: Report, firstError: string)
    requires Counted(rows, dialogs, now, w, t, firstError)
    ensures w.existing <= w.rows.Keys && Fits(rows, dialogs, now, w, t, firstError)
  {
    hide DistinctIds, Altered, Peers, Inserted, RowOf, Failures, FirstError;
    assert Commits(rows, w.added) == Commits(Deactivated(w.rows, w.existing), w.added) by {
      hide Touched;
    }
    hide Commits;
    if DistinctIds(dialogs) {
      Leaves(rows, Peers(dialogs), now, w);
    }
    hide Deactivated, ActiveIn, Gone, Synced, Touched, Fresh;
  }

  lemma Leaves(rows: Rows, peers: map<int, Peer>, now: int, w: Work)
    requires w.existing == rows.Keys - peers.Keys && w.rows == Touched(rows, peers, now)
    ensures Deactivated(w.rows, w.existing) + Fresh(rows, peers, now) == Synced(rows, peers, now)
    ensures ActiveIn(w.rows, w.existing) == Gone(rows, peers)
  {
    hide RowOf;
  }

  // ---------------------------------------------------------------- what a sync achieves

  ghost predicate Met(dialogs: seq<Dialog>, id: int) {
    exists k :: 0 <= k < |dialogs| && dialogs[k].Recognised? && dialogs[k].peer.id == id
  }

  /** After a committed sync the active resources are exactly the recognised dialogs, each with what was read
      off its own entity; a row no dialog was met for keeps everything but its activity. */
  lemma ActiveAreSynced(rows: Rows, dialogs: seq<Dialog>, now: int)
    requires DistinctIds(dialogs)
    ensures var after := Outcome(rows, dialogs, now).0;
            && (forall id :: id in after && after[id].isActive <==> Met(dialogs, id))
            && (forall k | 0 <= k < |dialogs| && dialogs[k].Recognised? ::
                  var p := dialogs[k].peer;
                  && p.id in after
                  && after[p.id] == Resource(p.peerType, p.accessHash, Some(p.title), p.username, p.description, p.muted, false,
                                             p.verified, p.scam, p.participants, true, now))
            && (forall id | id in rows && !Met(dialogs, id) :: id in after && after[id] == rows[id].(isActive := false))
  {
    var peers := Peers(dialogs);
    forall id ensures id in peers <==> Met(dialogs, id) {
      PeersAre(dialogs, id);
    }
    forall k | 0 <= k < |dialogs| && dialogs[k].Recognised?
      ensures dialogs[k].peer.id in peers && peers[dialogs[k].peer.id] == dialogs[k].peer
    {
      PeersAre(dialogs, dialogs[k].peer.id);
      assert Met(dialogs, dialogs[k].peer.id);
    }
    hide Peers, Met, DistinctIds;
  }

  lemma {:induction false} FailuresAre(dialogs: seq<Dialog>)
    ensures Failures(dialogs) == |set k | 0 <= k < |dialogs| && dialogs[k].Broken?|
  {
    if dialogs != [] {
      var n := |dialogs| - 1;
      FailuresAre(dialogs[..n]);
      assert (set k | 0 <= k < |dialogs| && dialogs[k].Broken?)
          == (set k | 0 <= k < n && dialogs[..n][k].Broken?) + (if dialogs[n].Broken? then {n} else {});
    }
  }

  /** A row that a dialog brings back to life or finds with another title, username, description or mark. */
  ghost predicate Renews(rows: Rows, dialogs: seq<Dialog>, id: int) {
    exists k :: && 0 <= k < |dialogs| && dialogs[k].Recognised? && dialogs[k].peer.id == id && id in rows
                && (|| !rows[id].isActive || rows[id].title != Some(dialogs[k].peer.title) || rows[id].username != dialogs[k].peer.username
                    || rows[id].description != dialogs[k].peer.description || rows[id].isVerified != dialogs[k].peer.verified
                    || rows[id].isScam != dialogs[k].peer.scam)
  }

  /** The rows reported as updated are exactly those a dialog renews. */
  lemma UpdatedExactly(rows: Rows, dialogs: seq<Dialog>, now: int)
    requires DistinctIds(dialogs)
    ensures Outcome(rows, dialogs, now).1.updated == |set id | id in rows && Renews(rows, dialogs, id)|
  {
    var peers := Peers(dialogs);
    forall id ensures id in Altered(rows, peers) <==> id in rows && Renews(rows, dialogs, id) {
      PeersAre(dialogs, id);
      if id in peers {
        var k :| 0 <= k < |dialogs| && dialogs[k] == Recognised(peers[id]);
        assert forall j | 0 <= j < |dialogs| && dialogs[j].Recognised? && dialogs[j].peer.id == id :: j == k;
      }
    }
    hide Altered, Renews, Peers, Failures, FirstError, Synced;
    assert Altered(rows, peers) == set id | id in rows && Renews(rows, dialogs, id);
  }

  /** The first broken dialog with a text. */
  ghost predicate FirstBroken(dialogs: seq<Dialog>, k: int) {
    0 <= k < |dialogs| && dialogs[k].Broken? && dialogs[k].error != ""
    && forall i | 0 <= i < k :: dialogs[i].Broken? ==> dialogs[i].error == ""
  }

  lemma {:induction false} FirstErrorIs(dialogs: seq<Dialog>)
    ensures forall k | FirstBroken(dialogs, k) :: FirstError(dialogs) == dialogs[k].error
    ensures (forall k :: !FirstBroken(dialogs, k)) ==> FirstError(dialogs) == ""
    ensures FirstError(dialogs) == "" ==> forall k | 0 <= k < |dialogs| && dialogs[k].Broken? :: dialogs[k].error == ""
  {
    if dialogs != [] {
      var n := |dialogs| - 1;
      var rest := dialogs[..n];
      FirstErrorIs(rest);
      assert forall k | k < n :: FirstBroken(dialogs, k) <==> FirstBroken(rest, k);
      if FirstError(rest) == "" {
        assert forall k | 0 <= k < n && dialogs[k].Broken? :: rest[k].error == "";
        if dialogs[n].Broken? && dialogs[n].error != "" {
          assert FirstBroken(dialogs, n);
        }
      } else {
        assert exists k :: FirstBroken(rest, k);
        var k :| FirstBroken(rest, k);
        assert FirstBroken(dialogs, k);
      }
    }
  }

  /** An error is reported exactly if every dialog is broken, and then it is the first one that has a text. */
  lemma ErrorExactly(rows: Rows, dialogs: seq<Dialog>, now: int)
    ensures var error := Outcome(rows, dialogs, now).1.error;
            && (error.Some? <==> (forall k | 0 <= k < |dialogs| :: dialogs[k].Broken?) && exists k :: FirstBroken(dialogs, k))
            && (error.Some? ==> forall k | FirstBroken(dialogs, k) :: error.value == dialogs[k].error)
  {
    FirstErrorIs(dialogs);
    AllBroken(dialogs);
    hide Peers, Synced, Altered, Gone, Failures, FirstError;
  }

  lemma {:induction false} AllBroken(dialogs: seq<Dialog>)
    ensures Failures(dialogs) == |dialogs| <==> forall k | 0 <= k < |dialogs| :: dialogs[k].Broken?
  {
    if dialogs != [] {
      var n := |dialogs| - 1;
      AllBroken(dialogs[..n]);
      assert forall k | 0 <= k < n :: dialogs[..n][k] == dialogs[k];
    }
  }

  /** The counters: every dialog is either synced or failed, the table grows by the new rows, and the deleted
      ones are the active rows that are not active any more. */
  lemma {:induction false} CountersAgree(rows: Rows, dialogs: seq<Dialog>, now: int)
    ensures var (after, r) := Outcome(rows, dialogs, now);
            && r.synced + r.failed == |dialogs| && r.failed == |set k | 0 <= k < |dialogs| && dialogs[k].Broken?|
            && |after.Keys| == |rows.Keys| + r.created
            && r.deleted == |set id | id in rows && rows[id].isActive && !(id in after && after[id].isActive)|
  {
    var peers := Peers(dialogs);
    FailuresAre(dialogs);
    hide Peers, Failures, FirstError, Altered;
    assert Synced(rows, peers, now).Keys == rows.Keys + (peers.Keys - rows.Keys);
    GoneAre(rows, peers, now);
    hide Gone, Synced;
  }

  lemma GoneAre(rows: Rows, peers: map<int, Peer>, now: int)
    ensures var after := Synced(rows, peers, now);
            Gone(rows, peers) == set id | id in rows && rows[id].isActive && !(id in after && after[id].isActive)
  {
    var after := Synced(rows, peers, now);
    assert forall id | id in rows :: id in after && (after[id].isActive <==> id in peers);
    hide Synced;
  }

  lemma NothingLeft(rows: Rows, peers: map<int, Peer>, now: int)
    ensures var after := Synced(rows, peers, now);
            peers.Keys - after.Keys == {} && Altered(after, peers) == {} && Gone(after, peers) == {}
  {
    var after := Synced(rows, peers, now);
    forall id | id in peers ensures id in after && after[id].isActive && !Differs(after[id], peers[id]) {
    }
    assert forall id | id in after && id !in peers :: !after[id].isActive;
    hide Synced, Differs;
    assert forall id :: id !in Altered(after, peers);
  }

  lemma SyncedTwice(rows: Rows, peers: map<int, Peer>, now: int, later: int)
    ensures Synced(Synced(rows, peers, now), peers, later) == Synced(rows, peers, later)
  {
    hide RowOf;
    var once := Synced(rows, peers, now);
    assert once.Keys + peers.Keys == rows.Keys + peers.Keys;
  }

  /** Syncing the same dialogs again reports nothing new, updated or deleted, and leaves what the later sync
      alone would have left. */
  lemma {:induction false} RepeatReportsNothing(rows: Rows, dialogs: seq<Dialog>, now: int, later: int)
    ensures var (after, r) := Outcome(rows, dialogs, now);
            && Outcome(after, dialogs, later).0 == Outcome(rows, dialogs, later).0
            && Outcome(after, dialogs, later).1 == Report(r.synced, 0, 0, 0, r.failed, r.error)
  {
    var peers := Peers(dialogs);
    NothingLeft(rows, peers, now);
    SyncedTwice(rows, peers, now, later);
    hide Synced, Altered, Gone, Peers, Failures, FirstError;
  }
}
