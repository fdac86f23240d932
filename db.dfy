/**
  The baseline store: the tables of baseline_core/db.py, their keys, CHECK
  constraints and the baseline_singleton trigger, and the SQL statements the
  engine runs against them.
*/
module Db {
  import opened Results

  type DeviceId = int
  type Text = string
  /** A hex digest as stored in the sha256 columns. */
  type Digest = string

  datatype ProposalStatus = Pending | Approved | Rejected
  datatype Severity = Info | Warn | Critical
  datatype DiffStats = DiffStats(added: nat, removed: nat)

  /** One row of each of the five tables the engine uses. Timestamp columns are not modelled. */
  datatype Snapshot = Snapshot(id: int, deviceId: DeviceId, text: Text, sha256: Digest)
  datatype Baseline = Baseline(deviceId: DeviceId, snapshotId: int, sha256: Digest, setBy: string)
  datatype HistoryRow = HistoryRow(id: int, deviceId: DeviceId, snapshotId: int, sha256: Digest)
  datatype Proposal = Proposal(id: int, deviceId: DeviceId, snapshotId: int, comment: string,
                               proposedBy: string, status: ProposalStatus, decidedBy: Option<string>)
  datatype DeviationEvent = DeviationEvent(id: int, deviceId: DeviceId, snapshotId: int,
                                           severity: Severity, stats: DiffStats)

  /** The named objects the schema script creates. */
  datatype SchemaObject =
    | ConfigSnapshotTable | BaselineTable | BaselineHistoryTable
    | ProposalTable | ProposalStatusIndex
    | DeviationEventTable | DevSevTimeIndex
    | IgnorePatternTable | BaselineSingletonTrigger

  const Schema: set<SchemaObject> :=
    {ConfigSnapshotTable, BaselineTable, BaselineHistoryTable, ProposalTable, ProposalStatusIndex,
     DeviationEventTable, DevSevTimeIndex, IgnorePatternTable, BaselineSingletonTrigger}

  /** Executing the schema script: every statement is CREATE ... IF NOT EXISTS. */
  function ApplySchema(existing: set<SchemaObject>): (r: set<SchemaObject>)
    ensures Schema <= r && existing <= r
    ensures forall o :: o in r ==> o in existing || o in Schema
  {
    existing + Schema
  }

  lemma ApplySchemaIdempotent(existing: set<SchemaObject>)
    ensures ApplySchema(ApplySchema(existing)) == ApplySchema(existing)
  {
  }

  /** The text stored in the status and severity columns. */
  function StatusName(s: ProposalStatus): string {
    match s
    case Pending => "pending"
    case Approved => "approved"
    case Rejected => "rejected"
  }

  function SeverityName(s: Severity): string {
    match s
    case Info => "info"
    case Warn => "warn"
    case Critical => "critical"
  }

  /** CHECK(status IN ('pending','approved','rejected')): the texts the column admits. */
  function StatusCheck(text: string): (r: Option<ProposalStatus>)
    ensures r.Some? <==> text in {"pending", "approved", "rejected"}
    ensures r.Some? ==> StatusName(r.value) == text
  {
    if text == "pending" then Some(Pending)
    else if text == "approved" then Some(Approved)
    else if text == "rejected" then Some(Rejected)
    else None
  }

  /** CHECK(severity IN ('info','warn','critical')). */
  function SeverityCheck(text: string): (r: Option<Severity>)
    ensures r.Some? <==> text in {"info", "warn", "critical"}
    ensures r.Some? ==> SeverityName(r.value) == text
  {
    if text == "info" then Some(Info)
    else if text == "warn" then Some(Warn)
    else if text == "critical" then Some(Critical)
    else None
  }

  /** Every status and severity the engine writes passes its column's CHECK. */
  lemma StoredNamesPassChecks(s: ProposalStatus, v: Severity)
    ensures StatusCheck(StatusName(s)) == Some(s)
    ensures SeverityCheck(SeverityName(v)) == Some(v)
  {
  }


  /*
    The table constraints and the engine's invariants, stated on row values so
    that each statement's effect on them can be judged from the rows it touches.
  */

  /** The append-only tables hold their rows in rowid order from 1. */
  ghost predicate SnapshotsInOrder(snaps: seq<Snapshot>) {
    forall i :: 0 <= i < |snaps| ==> snaps[i].id == i + 1
  }

  ghost predicate HistoryInOrder(h: seq<HistoryRow>) {
    forall i :: 0 <= i < |h| ==> h[i].id == i + 1
  }

  ghost predicate EventsInOrder(ev: seq<DeviationEvent>) {
    forall i :: 0 <= i < |ev| ==> ev[i].id == i + 1
  }

  /** Proposals are keyed by their id, and the ids run from 1 up to their count. */
  ghost predicate ProposalsKeyed(ps: map<int, Proposal>) {
    forall id :: id in ps ==> ps[id].id == id && 1 <= id <= |ps|
  }

  /**
    device_id is Baseline's primary key (and baseline_singleton aborts a
    second row for a device); snapshot_id is UNIQUE.
  */
  ghost predicate KeyedBaselines(m: map<DeviceId, Baseline>) {
    && (forall d :: d in m ==> m[d].deviceId == d)
    && (forall d, e :: d in m && e in m && d != e ==> m[d].snapshotId != m[e].snapshotId)
  }

  /** A row that neither key refuses keeps both keys. */
  lemma KeyedBaselinesInsert(m: map<DeviceId, Baseline>, row: Baseline)
    requires KeyedBaselines(m)
    requires row.deviceId !in m && forall d :: d in m ==> m[d].snapshotId != row.snapshotId
    ensures KeyedBaselines(m[row.deviceId := row])
  {
    var m' := m[row.deviceId := row];
    forall d, e | d in m' && e in m' && d != e
      ensures m'[d].snapshotId != m'[e].snapshotId
    {
      if d == row.deviceId {
        assert m'[e] == m[e];
      } else if e == row.deviceId {
        assert m'[d] == m[d];
      }
    }
  }

  /** Snapshot `sid` exists among `snaps` and was taken for device `d`. */
  ghost predicate SnapshotFor(snaps: seq<Snapshot>, sid: int, d: DeviceId) {
    1 <= sid <= |snaps| && snaps[sid - 1].deviceId == d
  }

  /** Every snapshot's digest is the SHA-256 of its text. */
  ghost predicate Hashed(snaps: seq<Snapshot>, sha256: Text -> Digest) {
    forall i :: 0 <= i < |snaps| ==> snaps[i].sha256 == sha256(snaps[i].text)
  }

  /** Every proposal names a snapshot of its own device, and has a decider exactly when decided. */
  ghost predicate ProposalsRefer(ps: map<int, Proposal>, snaps: seq<Snapshot>) {
    forall id :: id in ps ==>
      && SnapshotFor(snaps, ps[id].snapshotId, ps[id].deviceId)
      && (ps[id].status == Pending <==> ps[id].decidedBy.None?)
  }

  /** Every baseline names a snapshot of its device and carries that snapshot's digest. */
  ghost predicate BaselinesRefer(m: map<DeviceId, Baseline>, snaps: seq<Snapshot>) {
    forall d :: d in m ==>
      SnapshotFor(snaps, m[d].snapshotId, d) && m[d].sha256 == snaps[m[d].snapshotId - 1].sha256
  }

  /** The same for every archived baseline. */
  ghost predicate HistoryRefers(h: seq<HistoryRow>, snaps: seq<Snapshot>) {
    forall i :: 0 <= i < |h| ==>
      SnapshotFor(snaps, h[i].snapshotId, h[i].deviceId) && h[i].sha256 == snaps[h[i].snapshotId - 1].sha256
  }

  /** Every deviation event names a snapshot of its device and is never 'info'. */
  ghost predicate EventsRefer(ev: seq<DeviationEvent>, snaps: seq<Snapshot>) {
    forall i :: 0 <= i < |ev| ==> SnapshotFor(snaps, ev[i].snapshotId, ev[i].deviceId) && ev[i].severity != Info
  }

  /** A snapshot of device `d` is no other device's baseline. */
  lemma OwnSnapshotFree(m: map<DeviceId, Baseline>, snaps: seq<Snapshot>, sid: int, d: DeviceId)
    requires BaselinesRefer(m, snaps) && SnapshotFor(snaps, sid, d)
    ensures forall e :: e in m && e != d ==> m[e].snapshotId != sid
  {
  }

  /** Appending a snapshot keeps every reference into the table. */
  lemma AppendKeepsReferences(snaps: seq<Snapshot>, s: Snapshot, ps: map<int, Proposal>,
                              m: map<DeviceId, Baseline>, h: seq<HistoryRow>, ev: seq<DeviationEvent>)
    ensures ProposalsRefer(ps, snaps) ==> ProposalsRefer(ps, snaps + [s])
    ensures BaselinesRefer(m, snaps) ==> BaselinesRefer(m, snaps + [s])
    ensures HistoryRefers(h, snaps) ==> HistoryRefers(h, snaps + [s])
    ensures EventsRefer(ev, snaps) ==> EventsRefer(ev, snaps + [s])
  {
    var snaps' := snaps + [s];
    assert forall sid, d :: SnapshotFor(snaps, sid, d) ==> SnapshotFor(snaps', sid, d) && snaps'[sid - 1] == snaps[sid - 1];
  }

  /**
    The database. `sha256` is the digest function, left uninterpreted.
    Row identifiers are SQLite rowids (max + 1); since no statement here deletes
    from ConfigSnapshot, BaselineHistory, Proposal or DeviationEvent, row k of
    each of them has id k.
  */
  class BaselineDb {
    const sha256: Text -> Digest
    var schema: set<SchemaObject>
    var snapshots: seq<Snapshot>
    var baseline: map<DeviceId, Baseline>
    var history: seq<HistoryRow>
    var proposals: map<int, Proposal>
    var events: seq<DeviationEvent>

    /** The constraints the tables themselves enforce. */
    ghost predicate Valid()
      reads this`snapshots, this`baseline, this`history, this`proposals, this`events
    {
      && SnapshotsInOrder(snapshots) && HistoryInOrder(history) && EventsInOrder(events)
      && ProposalsKeyed(proposals) && KeyedBaselines(baseline)
    }

    /** Snapshot `sid` exists and was taken for device `d`. */
    ghost predicate SnapshotOf(sid: int, d: DeviceId)
      reads this`snapshots
    {
      SnapshotFor(snapshots, sid, d)
    }

    /**
      What the engine keeps beyond the table constraints; this includes the
      foreign key Baseline.snapshot_id -> ConfigSnapshot.id, which SQLite does
      not enforce on the connections the engine writes through.
    */
    ghost predicate Consistent()
      reads this`snapshots, this`baseline, this`history, this`proposals, this`events
    {
      && Hashed(snapshots, sha256) && ProposalsRefer(proposals, snapshots)
      && BaselinesRefer(baseline, snapshots) && HistoryRefers(history, snapshots)
      && EventsRefer(events, snapshots)
    }

    /** The schema exists and the store is in a state the engine can leave it in. */
    ghost predicate Ready()
      reads this
    {
      Valid() && Consistent() && Schema <= schema
    }

    /** The text of the device's active baseline. */
    ghost function BaselineText(d: DeviceId): Text
      reads this`baseline, this`snapshots
      requires d in baseline && 1 <= baseline[d].snapshotId <= |snapshots|
    {
      snapshots[baseline[d].snapshotId - 1].text
    }

    /** SELECT id FROM ConfigSnapshot WHERE device_id=? AND sha256=? finds a row. */
    predicate HasSnapshot(d: DeviceId, sha: Digest)
      reads this`snapshots
    {
      exists i :: 0 <= i < |snapshots| && snapshots[i].deviceId == d && snapshots[i].sha256 == sha
    }

    /** A new, empty database file: no schema and no rows. */
    constructor (sha256: Text -> Digest)
      ensures this.sha256 == sha256
      ensures schema == {} && snapshots == [] && baseline == map[] && history == []
      ensures proposals == map[] && events == []
      ensures Valid() && Consistent()
    {
      this.sha256 := sha256;
      schema := {};
      snapshots := [];
      baseline := map[];
      history := [];
      proposals := map[];
      events := [];
    }

    /** init_db: runs the schema script; existing objects and all rows stay as they are. */
    method InitDb()
      requires Valid()
      modifies this`schema
      ensures schema == ApplySchema(old(schema))
      ensures Valid()
    {
      schema := ApplySchema(schema);
    }

    /** INSERT INTO ConfigSnapshot: always succeeds, no duplicate check. */
    method InsertSnapshot(d: DeviceId, text: Text, sha: Digest) returns (id: int)
      requires Ready() && sha == sha256(text)
      modifies this`snapshots
      ensures id == |old(snapshots)| + 1
      ensures snapshots == old(snapshots) + [Snapshot(id, d, text, sha)]
      ensures Ready()
    {
      id := |snapshots| + 1;
      AppendKeepsReferences(snapshots, Snapshot(id, d, text, sha), proposals, baseline, history, events);
      snapshots := snapshots + [Snapshot(id, d, text, sha)];
    }

    /** INSERT INTO Proposal: status takes its default, 'pending'; decided_by is NULL. */
    method InsertProposal(d: DeviceId, snapshotId: int, comment: string, proposedBy: string)
      returns (id: int)
      requires Ready() && SnapshotOf(snapshotId, d)
      modifies this`proposals
      ensures id == |old(proposals)| + 1 && id !in old(proposals)
      ensures proposals == old(proposals)[id := Proposal(id, d, snapshotId, comment, proposedBy, Pending, None)]
      ensures Ready()
    {
      id := |proposals| + 1;
      proposals := proposals[id := Proposal(id, d, snapshotId, comment, proposedBy, Pending, None)];
    }

    /** UPDATE Proposal SET status=?, decided_by=? WHERE id=?: no row changes when the id is absent. */
    method SetDecision(id: int, status: ProposalStatus, decidedBy: string)
      requires Ready() && status != Pending
      modifies this`proposals
      ensures proposals == if id in old(proposals)
                           then old(proposals)[id := old(proposals)[id].(status := status, decidedBy := Some(decidedBy))]
                           else old(proposals)
      ensures Ready()
    {
      if id in proposals {
        proposals := proposals[id := proposals[id].(status := status, decidedBy := Some(decidedBy))];
      }
    }

    /** INSERT INTO BaselineHistory. */
    method InsertHistory(d: DeviceId, snapshotId: int, sha: Digest) returns (id: int)
      requires Ready() && SnapshotOf(snapshotId, d) && sha == snapshots[snapshotId - 1].sha256
      modifies this`history
      ensures id == |old(history)| + 1
      ensures history == old(history) + [HistoryRow(id, d, snapshotId, sha)]
      ensures Ready()
    {
      id := |history| + 1;
      history := history + [HistoryRow(id, d, snapshotId, sha)];
    }

    /** DELETE FROM Baseline WHERE device_id=?. */
    method DeleteBaseline(d: DeviceId)
      requires Ready()
      modifies this`baseline
      ensures baseline == old(baseline) - {d}
      ensures Ready()
    {
      baseline := baseline - {d};
    }

    /**
      INSERT INTO Baseline. The row is refused (and nothing changes) when the
      device already has a baseline (the baseline_singleton trigger, and the
      primary key behind it) or when another baseline uses the same snapshot
      (the UNIQUE key).
    */
    method InsertBaseline(row: Baseline) returns (ok: bool)
      requires Ready() && SnapshotOf(row.snapshotId, row.deviceId)
      requires row.sha256 == snapshots[row.snapshotId - 1].sha256
      modifies this`baseline
      ensures ok <==> row.deviceId !in old(baseline) &&
                      forall d :: d in old(baseline) ==> old(baseline)[d].snapshotId != row.snapshotId
      ensures baseline == if ok then old(baseline)[row.deviceId := row] else old(baseline)
      ensures Ready()
    {
      ok := row.deviceId !in baseline && forall d :: d in baseline ==> baseline[d].snapshotId != row.snapshotId;
      if ok {
        KeyedBaselinesInsert(baseline, row);
        baseline := baseline[row.deviceId := row];
      }
    }

    /** INSERT INTO DeviationEvent. */
    method InsertDeviationEvent(d: DeviceId, snapshotId: int, severity: Severity, stats: DiffStats)
      returns (id: int)
      requires Ready() && SnapshotOf(snapshotId, d) && severity != Info
      modifies this`events
      ensures id == |old(events)| + 1
      ensures events == old(events) + [DeviationEvent(id, d, snapshotId, severity, stats)]
      ensures Ready()
    {
      id := |events| + 1;
      events := events + [DeviationEvent(id, d, snapshotId, severity, stats)];
    }
  }
}
