/**
  The request handlers of baseline_core/routes.py, on parsed arguments: the
  acting user, proposal creation and decision, and the read-only queries.
*/
module Routes {
  import opened Results
  import opened Strings
  import opened Db

  /** The failures the handlers raise. */
  datatype Error =
    | MissingSnapshot     // BadRequest: 'snapshot' text required
    | NotAuthenticated    // Forbidden: user not authenticated
    | DuplicateSnapshot   // 409: identical snapshot already exists
    | BadAction           // BadRequest: action must be 'approve' or 'reject'
    | ProposalNotFound    // NotFound
    | AlreadyDecided      // BadRequest
    | SelfDecision        // Forbidden: proposer cannot self-approve/reject
    | NoBaseline          // NotFound: no baseline for device

  function HttpStatus(e: Error): int {
    match e
    case MissingSnapshot => 400
    case NotAuthenticated => 403
    case DuplicateSnapshot => 409
    case BadAction => 400
    case ProposalNotFound => 404
    case AlreadyDecided => 400
    case SelfDecision => 403
    case NoBaseline => 404
  }

  /** The session's username and the Authorization header, when present. */
  datatype Credentials = Credentials(sessionUser: Option<string>, authorization: Option<string>)

  const BearerPrefix: string := "Bearer "
  const TokenActorPrefix: string := "tok_"
  /** How many characters of a bearer token name the actor. */
  const TokenChars: nat := 12

  /**
    The token of an Authorization header: the text after the first space of a
    header that starts with "Bearer ", which is that prefix's own space.
  */
  function BearerToken(header: Option<string>): (r: Option<string>)
    ensures r.Some? <==> header.Some? && StartsWith(header.value, BearerPrefix)
    ensures r.Some? ==> header.value == BearerPrefix + r.value
  {
    if header.Some? && StartsWith(header.value, BearerPrefix)
    then Some(header.value[|BearerPrefix|..])
    else None
  }

  function TokenActor(token: string): string {
    TokenActorPrefix + Prefix(token, TokenChars)
  }

  function CurrentUser(c: Credentials): (r: Result<string, Error>)
    ensures c.sessionUser.Some? && c.sessionUser.value != "" ==> r == Success(c.sessionUser.value)
    ensures (c.sessionUser.None? || c.sessionUser.value == "") &&
            BearerToken(c.authorization).Some? && BearerToken(c.authorization).value != "" ==>
              r == Success(TokenActorPrefix + Prefix(BearerToken(c.authorization).value, TokenChars))
    ensures r.Failure? <==> (c.sessionUser.None? || c.sessionUser.value == "") &&
                            (BearerToken(c.authorization).None? || BearerToken(c.authorization).value == "")
    ensures r.Failure? ==> r.error == NotAuthenticated
    ensures r.Success? ==> r.value != ""
  {
    if c.sessionUser.Some? && c.sessionUser.value != "" then Success(c.sessionUser.value)
    else
      var token := BearerToken(c.authorization);
      if token.Some? && token.value != "" then Success(TokenActor(token.value))
      else Failure(NotAuthenticated)
  }

  /**
    Without a session, two bearer tokens name the same actor exactly when they
    agree on their first twelve characters.
  */
  lemma TokenActorsEqualIff(t1: string, t2: string)
    ensures var c1 := Credentials(None, Some(BearerPrefix + t1));
            var c2 := Credentials(None, Some(BearerPrefix + t2));
            CurrentUser(c1) == CurrentUser(c2) <==> Prefix(t1, TokenChars) == Prefix(t2, TokenChars)
  {
    var h1, h2 := BearerPrefix + t1, BearerPrefix + t2;
    assert h1[..|BearerPrefix|] == BearerPrefix && h1[|BearerPrefix|..] == t1;
    assert h2[..|BearerPrefix|] == BearerPrefix && h2[|BearerPrefix|..] == t2;
    if TokenActor(t1) == TokenActor(t2) {
      var a1, a2 := TokenActor(t1), TokenActor(t2);
      assert Prefix(t1, TokenChars) == a1[|TokenActorPrefix|..];
      assert Prefix(t2, TokenChars) == a2[|TokenActorPrefix|..];
    }
  }

  /** What a successful create_proposal answers (with status 201). */
  datatype Created = Created(id: int, status: ProposalStatus)

  /**
    create_proposal. `snapshot` is the body's "snapshot" field and `comment`
    its "comment" field ("" when absent).
  */
  method CreateProposal(db: BaselineDb, d: DeviceId, snapshot: Option<Text>, comment: string, creds: Credentials)
    returns (r: Result<Created, Error>)
    requires db.Ready()
    modifies db`snapshots, db`proposals
    ensures db.Ready()
    ensures snapshot.None? || snapshot.value == "" ==> r == Failure(MissingSnapshot)
    ensures snapshot.Some? && snapshot.value != "" && CurrentUser(creds).Failure? ==>
              r == Failure(NotAuthenticated)
    ensures snapshot.Some? && snapshot.value != "" && CurrentUser(creds).Success? ==>
              if old(db.HasSnapshot(d, db.sha256(snapshot.value))) then r == Failure(DuplicateSnapshot)
              else r.Success?
    ensures r.Failure? ==> db.snapshots == old(db.snapshots) && db.proposals == old(db.proposals)
    ensures r.Success? ==>
              && snapshot.Some? && CurrentUser(creds).Success?
              && var sid, pid := |old(db.snapshots)| + 1, |old(db.proposals)| + 1;
              && r.value == Created(pid, Pending)
              && db.snapshots == old(db.snapshots) + [Snapshot(sid, d, snapshot.value, db.sha256(snapshot.value))]
              && db.proposals == old(db.proposals)[pid := Proposal(pid, d, sid, comment, CurrentUser(creds).value, Pending, None)]
  {
    if snapshot.None? || snapshot.value == "" {
      return Failure(MissingSnapshot);
    }
    var text := snapshot.value;
    var user := CurrentUser(creds);
    if user.Failure? {
      return Failure(NotAuthenticated);
    }
    var sha := db.sha256(text);
    if db.HasSnapshot(d, sha) {
      return Failure(DuplicateSnapshot);
    }
    var snapshotId := db.InsertSnapshot(d, text, sha);
    var proposalId := db.InsertProposal(d, snapshotId, comment, user.value);
    r := Success(Created(proposalId, Pending));
  }

  /** The "action" field of a decision. */
  function ActionStatus(action: Option<string>): (r: Option<ProposalStatus>)
    ensures r.Some? <==> action == Some("approve") || action == Some("reject")
    ensures action == Some("approve") ==> r == Some(Approved)
    ensures action == Some("reject") ==> r == Some(Rejected)
    ensures r.Some? ==> r.value != Pending
  {
    if action == Some("approve") then Some(Approved)
    else if action == Some("reject") then Some(Rejected)
    else None
  }

  /**
    decide_proposal. Every check happens before the first write, so a failure
    leaves the store as it was; an approval archives the device's current
    baseline and promotes the proposal's snapshot in the same commit.
  */
  method DecideProposal(db: BaselineDb, id: int, action: Option<string>, creds: Credentials)
    returns (r: Result<ProposalStatus, Error>)
    requires db.Ready()
    modifies db`proposals, db`baseline, db`history
    ensures db.Ready()
    ensures ActionStatus(action).None? ==> r == Failure(BadAction)
    ensures ActionStatus(action).Some? && CurrentUser(creds).Failure? ==> r == Failure(NotAuthenticated)
    ensures ActionStatus(action).Some? && CurrentUser(creds).Success? ==>
              if id !in old(db.proposals) then r == Failure(ProposalNotFound)
              else if old(db.proposals)[id].status != Pending then r == Failure(AlreadyDecided)
              else if old(db.proposals)[id].proposedBy == CurrentUser(creds).value then r == Failure(SelfDecision)
              else r == Success(ActionStatus(action).value)
    ensures r.Failure? ==>
              db.proposals == old(db.proposals) && db.baseline == old(db.baseline) && db.history == old(db.history)
    ensures r.Success? ==>
              && id in old(db.proposals) && CurrentUser(creds).Success?
              && db.proposals == old(db.proposals)[id := old(db.proposals)[id].(status := r.value,
                                                                 decidedBy := Some(CurrentUser(creds).value))]
    ensures r == Success(Rejected) ==> db.baseline == old(db.baseline) && db.history == old(db.history)
    ensures r == Success(Approved) ==>
              && id in old(db.proposals) && CurrentUser(creds).Success?
              && var p := old(db.proposals)[id];
              && 1 <= p.snapshotId <= |db.snapshots|
              && db.baseline == old(db.baseline)[p.deviceId := Baseline(p.deviceId, p.snapshotId,
                                  db.snapshots[p.snapshotId - 1].sha256, CurrentUser(creds).value)]
              && db.history == old(db.history) +
                   (if p.deviceId in old(db.baseline)
                    then [HistoryRow(|old(db.history)| + 1, p.deviceId, old(db.baseline)[p.deviceId].snapshotId,
                                     old(db.baseline)[p.deviceId].sha256)]
                    else [])
  {
    var status := ActionStatus(action);
    if status.None? {
      return Failure(BadAction);
    }
    var user := CurrentUser(creds);
    if user.Failure? {
      return Failure(NotAuthenticated);
    }
    if id !in db.proposals {
      return Failure(ProposalNotFound);
    }
    var p := db.proposals[id];
    if p.status != Pending {
      return Failure(AlreadyDecided);
    }
    if p.proposedBy == user.value {
      return Failure(SelfDecision);
    }
    db.SetDecision(id, status.value, user.value);
    if status.value == Approved {
      Promote(db, p.deviceId, p.snapshotId, user.value);
    }
    r := Success(status.value);
  }

  /** The approval branch's first half: move the device's current baseline, if any, to the history. */
  method ArchiveBaseline(db: BaselineDb, d: DeviceId)
    requires db.Ready()
    modifies db`baseline, db`history
    ensures db.Ready()
    ensures db.baseline == old(db.baseline) - {d}
    ensures db.history == old(db.history) +
              (if d in old(db.baseline)
               then [HistoryRow(|old(db.history)| + 1, d, old(db.baseline)[d].snapshotId, old(db.baseline)[d].sha256)]
               else [])
  {
    if d in db.baseline {
      var current := db.baseline[d];
      assert db.SnapshotOf(current.snapshotId, d) && current.sha256 == db.snapshots[current.snapshotId - 1].sha256;
      var _ := db.InsertHistory(d, current.snapshotId, current.sha256);
      assert db.Consistent();
      db.DeleteBaseline(d);
    } else {
      assert db.baseline - {d} == db.baseline;
    }
  }

  /**
    The approval branch of decide_proposal: archive the device's current
    baseline and make snapshot `sid` its baseline, set by `user`.
  */
  method Promote(db: BaselineDb, d: DeviceId, sid: int, user: string)
    requires db.Ready() && db.SnapshotOf(sid, d)
    modifies db`baseline, db`history
    ensures db.Ready()
    ensures db.baseline == old(db.baseline)[d := Baseline(d, sid, db.snapshots[sid - 1].sha256, user)]
    ensures db.history == old(db.history) +
              (if d in old(db.baseline)
               then [HistoryRow(|old(db.history)| + 1, d, old(db.baseline)[d].snapshotId, old(db.baseline)[d].sha256)]
               else [])
  {
    ghost var before := db.baseline;
    // the snapshot belongs to d, so no other device's baseline uses it
    OwnSnapshotFree(before, db.snapshots, sid, d);
    ArchiveBaseline(db, d);
    var row := Baseline(d, sid, db.snapshots[sid - 1].sha256, user);
    var ok := db.InsertBaseline(row);
    // neither baseline_singleton nor the UNIQUE key can refuse the new row
    assert ok;
    RemoveThenInsert(before, d, row);
  }

  /** Deleting a key and inserting it again is one update. */
  lemma RemoveThenInsert<K, V>(m: map<K, V>, k: K, v: V)
    ensures (m - {k})[k := v] == m[k := v]
  {
  }

  /** The "status" query argument; absent or empty means no filter. */
  predicate Matches(p: Proposal, status: Option<string>) {
    status.None? || status.value == "" || StatusName(p.status) == status.value
  }

  /** Proposals with id at most n that pass the filter, by id descending. */
  function ProposalsDownFrom(ps: map<int, Proposal>, n: nat, status: Option<string>): (r: seq<Proposal>)
    requires forall k :: k in ps ==> ps[k].id == k
    ensures forall i :: 0 <= i < |r| ==>
              r[i].id in ps && ps[r[i].id] == r[i] && 1 <= r[i].id <= n && Matches(r[i], status)
    ensures forall i, j :: 0 <= i < j < |r| ==> r[i].id > r[j].id
    ensures forall k :: k in ps && 1 <= k <= n && Matches(ps[k], status) ==> ps[k] in r
  {
    if n == 0 then []
    else if n in ps && Matches(ps[n], status) then [ps[n]] + ProposalsDownFrom(ps, n - 1, status)
    else ProposalsDownFrom(ps, n - 1, status)
  }

  /** list_proposals: the proposals passing the status filter, newest (highest id) first. */
  function ListProposals(db: BaselineDb, status: Option<string>): (r: seq<Proposal>)
    reads db
    requires db.Valid()
    ensures forall i :: 0 <= i < |r| ==>
              r[i].id in db.proposals && db.proposals[r[i].id] == r[i] && Matches(r[i], status)
    ensures forall id :: id in db.proposals && Matches(db.proposals[id], status) ==> db.proposals[id] in r
    ensures forall i, j :: 0 <= i < j < |r| ==> r[i].id > r[j].id
  {
    ProposalsDownFrom(db.proposals, |db.proposals|, status)
  }

  /** The device's events among the first n, newest first. */
  function DeviationsDownFrom(events: seq<DeviationEvent>, n: nat, d: DeviceId): (r: seq<DeviationEvent>)
    requires n <= |events|
    requires forall i :: 0 <= i < |events| ==> events[i].id == i + 1
    ensures forall i :: 0 <= i < |r| ==> 1 <= r[i].id <= n && events[r[i].id - 1] == r[i] && r[i].deviceId == d
  {
    if n == 0 then []
    else if events[n - 1].deviceId == d then [events[n - 1]] + DeviationsDownFrom(events, n - 1, d)
    else DeviationsDownFrom(events, n - 1, d)
  }

  /** No event of the device among the first n is missed. */
  lemma {:induction false} DeviationsComplete(events: seq<DeviationEvent>, n: nat, d: DeviceId)
    requires n <= |events|
    requires forall i :: 0 <= i < |events| ==> events[i].id == i + 1
    ensures forall k :: 0 <= k < n && events[k].deviceId == d ==> events[k] in DeviationsDownFrom(events, n, d)
  {
    if n > 0 {
      DeviationsComplete(events, n - 1, d);
    }
  }

  /** The ids strictly decrease along the sequence. */
  ghost predicate NewestFirst(r: seq<DeviationEvent>) {
    forall i, j :: 0 <= i < j < |r| ==> r[i].id > r[j].id
  }

  /** The device's events come out newest first. */
  lemma {:induction false} DeviationsDescending(events: seq<DeviationEvent>, n: nat, d: DeviceId)
    requires n <= |events|
    requires forall i :: 0 <= i < |events| ==> events[i].id == i + 1
    ensures NewestFirst(DeviationsDownFrom(events, n, d))
  {
    if n > 0 {
      DeviationsDescending(events, n - 1, d);
      var rest := DeviationsDownFrom(events, n - 1, d);
      if events[n - 1].deviceId == d {
        var r := [events[n - 1]] + rest;
        assert r == DeviationsDownFrom(events, n, d);
        assert r[0].id == n;
        forall i, j | 0 <= i < j < |r| ensures r[i].id > r[j].id {
          assert r[j] == rest[j - 1] && rest[j - 1].id <= n - 1;
          if i > 0 {
            assert r[i] == rest[i - 1];
          }
        }
      } else {
        assert rest == DeviationsDownFrom(events, n, d);
      }
    }
  }

  /** get_device_deviations: the device's deviation events, by id descending. */
  function GetDeviceDeviations(db: BaselineDb, d: DeviceId): (r: seq<DeviationEvent>)
    reads db
    requires db.Valid()
    ensures forall e :: e in r <==> e in db.events && e.deviceId == d
    ensures forall i, j :: 0 <= i < j < |r| ==> r[i].id > r[j].id
  {
    DeviationsMembership(db.events, d);
    DeviationsDescending(db.events, |db.events|, d);
    DeviationsDownFrom(db.events, |db.events|, d)
  }

  lemma DeviationsMembership(events: seq<DeviationEvent>, d: DeviceId)
    requires forall i :: 0 <= i < |events| ==> events[i].id == i + 1
    ensures forall e :: e in DeviationsDownFrom(events, |events|, d) <==> e in events && e.deviceId == d
  {
    var r := DeviationsDownFrom(events, |events|, d);
    DeviationsComplete(events, |events|, d);
    forall e | e in events && e.deviceId == d ensures e in r {
      var k :| 0 <= k < |events| && events[k] == e;
    }
    forall e | e in r ensures e in events && e.deviceId == d {
      var i :| 0 <= i < |r| && r[i] == e;
      assert events[r[i].id - 1] == e;
    }
  }

  /** What get_device_baseline answers: the Baseline row joined with its snapshot's text. */
  datatype BaselineView = BaselineView(row: Baseline, text: Text)

  function GetDeviceBaseline(db: BaselineDb, d: DeviceId): (r: Result<BaselineView, Error>)
    reads db
    requires db.Valid()
    ensures r.Failure? ==> r.error == NoBaseline
    ensures r.Success? ==> d in db.baseline && r.value.row == db.baseline[d] &&
                           1 <= r.value.row.snapshotId <= |db.snapshots| &&
                           r.value.text == db.snapshots[r.value.row.snapshotId - 1].text
    ensures db.Consistent() ==> (r.Success? <==> d in db.baseline)
    ensures db.Consistent() && r.Success? ==> db.sha256(r.value.text) == r.value.row.sha256
  {
    if d in db.baseline && 1 <= db.baseline[d].snapshotId <= |db.snapshots|
    then Success(BaselineView(db.baseline[d], db.snapshots[db.baseline[d].snapshotId - 1].text))
    else Failure(NoBaseline)
  }
}
