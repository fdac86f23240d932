/**
  The repository's baseline tests, as clients of the model: each builds a new
  store, runs the schema script and drives the handlers as the test does.
*/
module Scenarios {
  import opened Results
  import opened Strings
  import opened Db
  import opened Diff
  import opened Routes

  /** A request from a logged-in session. */
  function SessionCredentials(user: string): Credentials {
    Credentials(Some(user), None)
  }

  /** Looking a digest up in a store that holds one snapshot. */
  lemma OneSnapshotLookup(db: BaselineDb, s: Snapshot, d: DeviceId, sha: Digest)
    requires db.snapshots == [s]
    ensures db.HasSnapshot(d, sha) <==> s.deviceId == d && s.sha256 == sha
  {
    if db.HasSnapshot(d, sha) {
      var i :| 0 <= i < |db.snapshots| && db.snapshots[i].deviceId == d && db.snapshots[i].sha256 == sha;
      assert i == 0;
    }
    if s.deviceId == d && s.sha256 == sha {
      assert db.snapshots[0] == s;
    }
  }

  /** The test fixture: a new database file on which init_db has run. */
  method FreshStore(sha: Text -> Digest) returns (db: BaselineDb)
    ensures fresh(db) && db.Ready() && db.sha256 == sha
    ensures db.snapshots == [] && db.baseline == map[] && db.history == []
    ensures db.proposals == map[] && db.events == []
  {
    db := new BaselineDb(sha);
    db.InitDb();
  }

  /** `proposer` proposes `text` for device 1 of a fresh store. */
  method ProposedStore(sha: Text -> Digest, text: Text, proposer: string)
    returns (db: BaselineDb, created: Result<Created, Error>)
    requires text != "" && proposer != ""
    ensures fresh(db) && db.Ready() && db.sha256 == sha
    ensures created == Success(Created(1, Pending))
    ensures db.snapshots == [Snapshot(1, 1, text, sha(text))]
    ensures db.proposals == map[1 := Proposal(1, 1, 1, "", proposer, Pending, None)]
    ensures db.baseline == map[] && db.history == [] && db.events == []
  {
    db := FreshStore(sha);
    created := CreateProposal(db, 1, Some(text), "", SessionCredentials(proposer));
  }

  /**
    The tests' baseline step: `proposer` proposes `text` for device 1 of a
    fresh store and `approver` approves it.
  */
  method SetBaseline(sha: Text -> Digest, text: Text, proposer: string, approver: string)
    returns (db: BaselineDb, decided: Result<ProposalStatus, Error>)
    requires text != "" && proposer != "" && approver != "" && proposer != approver
    ensures fresh(db) && db.Ready() && db.sha256 == sha
    ensures decided == Success(Approved)
    ensures db.snapshots == [Snapshot(1, 1, text, sha(text))]
    ensures db.proposals == map[1 := Proposal(1, 1, 1, "", proposer, Approved, Some(approver))]
    ensures db.baseline == map[1 := Baseline(1, 1, sha(text), approver)]
    ensures db.history == [] && db.events == []
  {
    var created;
    db, created := ProposedStore(sha, text, proposer);
    ghost var ps := db.proposals;
    assert ps[1].status == Pending && ps[1].proposedBy == proposer;
    decided := DecideProposal(db, 1, Some("approve"), SessionCredentials(approver));
    assert db.proposals == ps[1 := ps[1].(status := Approved, decidedBy := Some(approver))];
    assert db.baseline == map[][1 := Baseline(1, 1, db.snapshots[0].sha256, approver)];
  }

  /**
    Proposing the same text twice for a device is refused with 409 the second
    time; the same text is still accepted for another device.
  */
  method DuplicateProposalRefused(sha: Text -> Digest, text: Text, comment: string, user: string)
    returns (first: Result<Created, Error>, second: Result<Created, Error>, other: Result<Created, Error>)
    requires text != "" && user != ""
    ensures first.Success? && second == Failure(DuplicateSnapshot) && other.Success?
  {
    var db := FreshStore(sha);
    var creds := SessionCredentials(user);
    first := CreateProposal(db, 1, Some(text), comment, creds);
    var s := Snapshot(1, 1, text, sha(text));
    OneSnapshotLookup(db, s, 1, sha(text));
    OneSnapshotLookup(db, s, 2, sha(text));
    second := CreateProposal(db, 1, Some(text), comment, creds);
    other := CreateProposal(db, 2, Some(text), comment, creds);
  }

  /**
    A snapshot recorded by the drift check also counts as a duplicate for a
    later proposal of the same text.
  */
  method RecordedSnapshotBlocksProposal(sha: Text -> Digest, text: Text, user: string,
                                        unifiedDiff: (Text, Text) -> seq<string>)
    returns (detection: Detection, proposal: Result<Created, Error>)
    requires text != "" && user != ""
    ensures detection == Detection(Info, DiffStats(0, 0), 1)
    ensures proposal == Failure(DuplicateSnapshot)
  {
    var db := FreshStore(sha);
    detection := DiffAndRecord(db, 1, text, unifiedDiff);
    OneSnapshotLookup(db, Snapshot(1, 1, text, sha(text)), 1, sha(text));
    proposal := CreateProposal(db, 1, Some(text), "", SessionCredentials(user));
  }

  /** The proposer cannot decide their own proposal, and no baseline appears. */
  method SelfDecisionRefused(sha: Text -> Digest, text: Text, proposer: string)
    returns (own: Result<ProposalStatus, Error>, view: Result<BaselineView, Error>)
    requires text != "" && proposer != ""
    ensures own == Failure(SelfDecision)
    ensures view == Failure(NoBaseline)
  {
    var db, created := ProposedStore(sha, text, proposer);
    own := DecideProposal(db, 1, Some("approve"), SessionCredentials(proposer));
    view := GetDeviceBaseline(db, 1);
  }

  /**
    Once another user has approved the proposal, the device's baseline serves
    the proposed text, and a second decision is refused as already decided.
  */
  method ApproveBySecondUser(sha: Text -> Digest, text: Text, proposer: string, approver: string)
    returns (view: Result<BaselineView, Error>, again: Result<ProposalStatus, Error>)
    requires text != "" && proposer != "" && approver != "" && proposer != approver
    ensures view.Success? && view.value.text == text && view.value.row.setBy == approver
    ensures again == Failure(AlreadyDecided)
  {
    var db, decided := SetBaseline(sha, text, proposer, approver);
    view := GetDeviceBaseline(db, 1);
    again := DecideProposal(db, 1, Some("reject"), SessionCredentials(approver));
  }

  /**
    Approving a second proposal for a device archives the first baseline in
    the history and makes the second one active.
  */
  method ReplaceBaselineArchives(sha: Text -> Digest, t1: Text, t2: Text, proposer: string, approver: string)
    returns (history: seq<HistoryRow>, view: Result<BaselineView, Error>)
    requires t1 != "" && t2 != "" && sha(t1) != sha(t2)
    requires proposer != "" && approver != "" && proposer != approver
    ensures history == [HistoryRow(1, 1, 1, sha(t1))]
    ensures view.Success? && view.value.text == t2 && view.value.row.snapshotId == 2
  {
    var db, created := SecondProposal(sha, t1, t2, proposer, approver);
    var decided := DecideProposal(db, 2, Some("approve"), SessionCredentials(approver));
    history := db.history;
    view := GetDeviceBaseline(db, 1);
  }

  /** A store with an active baseline for device 1 and a second, pending proposal for it. */
  method SecondProposal(sha: Text -> Digest, t1: Text, t2: Text, proposer: string, approver: string)
    returns (db: BaselineDb, created: Result<Created, Error>)
    requires t1 != "" && t2 != "" && sha(t1) != sha(t2)
    requires proposer != "" && approver != "" && proposer != approver
    ensures fresh(db) && db.Ready() && db.sha256 == sha
    ensures created == Success(Created(2, Pending))
    ensures db.snapshots == [Snapshot(1, 1, t1, sha(t1)), Snapshot(2, 1, t2, sha(t2))]
    ensures db.proposals == map[1 := Proposal(1, 1, 1, "", proposer, Approved, Some(approver)),
                                2 := Proposal(2, 1, 2, "", proposer, Pending, None)]
    ensures db.baseline == map[1 := Baseline(1, 1, sha(t1), approver)]
    ensures db.history == [] && db.events == []
  {
    var decided;
    db, decided := SetBaseline(sha, t1, proposer, approver);
    OneSnapshotLookup(db, Snapshot(1, 1, t1, sha(t1)), 1, sha(t2));
    created := CreateProposal(db, 1, Some(t2), "", SessionCredentials(proposer));
  }

  const BaselineConfig: Text := "interface Loopback0\n description baseline\n!"
  const ChangedConfig: Text := "interface Loopback0\n description baseline\n ip access-group 101 in\n!"

  /** The hunk difflib produces for the two configurations' lines. */
  const AclHunk: seq<string> :=
    ["@@ -1,3 +1,4 @@", " interface Loopback0", "  description baseline", "+ ip access-group 101 in", " !"]

  /** The whole unified diff: file headers without names, then the hunk. */
  const AclDiff: seq<string> := ["--- ", "+++ "] + AclHunk

  /** The added access-group line holds the critical key "ip access", so both classifications say critical. */
  lemma AclDiffIsCritical()
    ensures ClassifySeverity(AclDiff) == Critical
    ensures ClassifyChanges(AclDiff) == Critical
  {
    AclLineIsCritical();
    MarkerTests(AclDiff[5]);
    assert IsChangedLine(AclDiff[5]);
  }

  /** The access-group line itself, "+ ip access-group 101 in", holds "ip access". */
  lemma AclLineIsCritical()
    ensures LineHas(AclDiff[5], CriticalKeys)
  {
    var line := AclDiff[5];
    var key := CriticalKeys[4];
    var before, after := "+ ", "-group 101 in";
    assert line == before + key + after;
    LowerAppend(before + key, after);
    LowerAppend(before, key);
    assert Lower(key) == key;
    assert Lower(line) == Lower(before) + key + Lower(after);
    assert |Lower(before)| == 2;
    assert OccursAt(Lower(line), key, 2);
    ContainsIff(Lower(line), key);
  }

  /**
    The diff of "interface Loopback0" against "interface Loopback0\nhostname":
    the only change is an added hostname line, under an unchanged interface
    line that the diff shows as context.
  */
  const HostnameDiff: seq<string> := ["--- ", "+++ ", "@@ -1 +1,2 @@", " interface Loopback0", "+hostname"]

  /**
    classify_severity as written reads the context line and answers critical;
    the added and removed lines alone, as its documentation says, give warn.
  */
  lemma ContextLineDecidesSeverity()
    ensures ClassifySeverity(HostnameDiff) == Critical
    ensures ClassifyChanges(HostnameDiff) == Warn
  {
    ContextLineIsCritical();
    HostnameLineIsWarn();
    OnlyLastLineChanged();
    assert HostnameDiff[4] == "+hostname";
  }

  /** Of the diff's hunk lines only the last, "+hostname", is an added or removed line. */
  lemma OnlyLastLineChanged()
    ensures forall i :: 2 <= i < |HostnameDiff| && IsChangedLine(HostnameDiff[i]) ==> i == 4
    ensures IsChangedLine(HostnameDiff[4])
  {
    var l := HostnameDiff;
    MarkerTests(l[0]);
    MarkerTests(l[1]);
    MarkerTests(l[2]);
    MarkerTests(l[3]);
    MarkerTests(l[4]);
  }

  /**
    The diff that removes the configuration line "-- interface x", the only
    line of the baseline: the removed line reads "--- interface x".
  */
  const DashLineDiff: seq<string> := ["--- ", "+++ ", "@@ -1 +0,0 @@", "--- interface x"]

  /**
    The removed line is a changed hunk line, so the corrected classification
    reads it, although the removed-line count, testing for "---", passes it by.
  */
  lemma DashLineRead()
    ensures ClassifyChanges(DashLineDiff) == Critical
    ensures CountRemoved(DashLineDiff) == 0
  {
    var line := DashLineDiff[3];
    DashLineIsCritical();
    MarkerTests(DashLineDiff[0]);
    MarkerTests(DashLineDiff[1]);
    MarkerTests(DashLineDiff[2]);
    MarkerTests(line);
    assert line[..3] == "---";
    assert IsChangedLine(line);
  }

  /** The removed line "--- interface x" holds the critical key "interface ". */
  lemma DashLineIsCritical()
    ensures LineHas(DashLineDiff[3], CriticalKeys)
  {
    var line := DashLineDiff[3];
    var key := CriticalKeys[0];
    var before, after := "--- ", "x";
    assert line == before + key + after;
    LowerAppend(before + key, after);
    LowerAppend(before, key);
    assert Lower(key) == key;
    assert Lower(line) == Lower(before) + key + Lower(after);
    assert |Lower(before)| == 4;
    assert OccursAt(Lower(line), key, 4);
    ContainsIff(Lower(line), key);
  }

  /** The context line " interface Loopback0" holds the critical key "interface ". */
  lemma ContextLineIsCritical()
    ensures LineHas(HostnameDiff[3], CriticalKeys)
  {
    var line := HostnameDiff[3];
    var key := CriticalKeys[0];
    var before, after := " ", "Loopback0";
    assert line == before + key + after;
    LowerAppend(before + key, after);
    LowerAppend(before, key);
    assert Lower(key) == key;
    assert Lower(line) == Lower(before) + key + Lower(after);
    assert |Lower(before)| == 1;
    assert OccursAt(Lower(line), key, 1);
    ContainsIff(Lower(line), key);
  }

  /** "+hostname" holds the warn key "hostname" and, having no space and no '-', no critical key. */
  lemma HostnameLineIsWarn()
    ensures !LineHas("+hostname", CriticalKeys) && LineHas("+hostname", WarnKeys)
  {
    var line := "+hostname";
    assert Lower(line) == line by {
      forall i | 0 <= i < |line| ensures Lower(line)[i] == line[i] {
      }
    }
    assert ' ' !in line && '-' !in line;
    forall j | 0 <= j < |CriticalKeys| ensures !Contains(line, CriticalKeys[j]) {
      if j == 1 || j == 3 {
        AbsentCharBlocks(line, CriticalKeys[j], '-');
      } else {
        AbsentCharBlocks(line, CriticalKeys[j], ' ');
      }
    }
    assert OccursAt(line, WarnKeys[0], 1);
    ContainsIff(line, WarnKeys[0]);
  }

  /** What the marker tests see of a line: its first two characters. */
  lemma MarkerTests(l: string)
    requires |l| >= 2
    ensures StartsWith(l, "+") <==> l[0] == '+'
    ensures StartsWith(l, "-") <==> l[0] == '-'
    ensures StartsWith(l, "+++") ==> l[1] == '+'
    ensures StartsWith(l, "---") ==> l[1] == '-'
  {
    if |l| >= 3 && l[..3] == "+++" {
      assert l[..3][1] == l[1];
    }
    if |l| >= 3 && l[..3] == "---" {
      assert l[..3][1] == l[1];
    }
    if l[0] == '+' {
      assert l[..1] == "+";
    }
    if l[0] == '-' {
      assert l[..1] == "-";
    }
    if l[..1] == "+" || l[..1] == "-" {
      assert l[..1][0] == l[0];
    }
  }

  /** The hunk adds one line and removes none. */
  lemma AclHunkCounts()
    ensures CountAdded(AclHunk) == 1 && CountRemoved(AclHunk) == 0
  {
    var l := AclHunk;
    MarkerTests(l[0]);
    MarkerTests(l[1]);
    MarkerTests(l[2]);
    MarkerTests(l[3]);
    MarkerTests(l[4]);
    assert IsAddedLine(l[3]) && !IsRemovedLine(l[3]);
    assert !IsAddedLine(l[0]) && !IsAddedLine(l[1]) && !IsAddedLine(l[2]) && !IsAddedLine(l[4]);
    assert !IsRemovedLine(l[0]) && !IsRemovedLine(l[1]) && !IsRemovedLine(l[2]) && !IsRemovedLine(l[4]);
    assert l[4..][1..] == [];
    assert l[3..][1..] == l[4..];
    assert l[2..][1..] == l[3..];
    assert l[1..][1..] == l[2..];
    assert CountAdded(l[4..]) == 0 && CountRemoved(l[4..]) == 0;
    assert CountAdded(l[3..]) == 1 && CountRemoved(l[3..]) == 0;
    assert CountAdded(l[2..]) == 1 && CountRemoved(l[2..]) == 0;
    assert CountAdded(l[1..]) == 1 && CountRemoved(l[1..]) == 0;
  }

  /** With the headers, the diff still counts one added and no removed line. */
  lemma AclDiffCounts()
    ensures CountAdded(AclDiff) == 1 && CountRemoved(AclDiff) == 0
  {
    assert "--- " + "" == "--- " && "+++ " + "" == "+++ ";
    HeadersNotCounted("", "", AclHunk);
    AclHunkCounts();
  }

  /**
    An access-group line added to the approved configuration is recorded as a
    critical deviation, and the device's deviation list starts with it.
  */
  method CriticalDeviationRecorded(sha: Text -> Digest, unifiedDiff: (Text, Text) -> seq<string>,
                                   proposer: string, approver: string)
    returns (detection: Detection, deviations: seq<DeviationEvent>)
    requires unifiedDiff(BaselineConfig, ChangedConfig) == AclDiff
    requires proposer != "" && approver != "" && proposer != approver
    ensures detection == Detection(Critical, DiffStats(1, 0), 2)
    ensures |deviations| >= 1 && deviations[0].severity == Critical
  {
    var db, decided := SetBaseline(sha, BaselineConfig, proposer, approver);
    AclLineIsCritical();
    AclDiffCounts();
    detection := DiffAndRecord(db, 1, ChangedConfig, unifiedDiff);
    deviations := GetDeviceDeviations(db, 1);
    assert db.events[0] in deviations;
  }
}
