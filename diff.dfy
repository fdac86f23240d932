/**
  The severity classifier and the deviation recorder of baseline_core/diff.py.
*/
module Diff {
  import opened Results
  import opened Db
  import opened Strings

  const CriticalKeys: seq<string> := ["interface ", "access-list", "acl ", "route-map", "ip access"]
  const WarnKeys: seq<string> := ["hostname", "banner"]
  /** Declared beside the other two, but the classifier never reads it. */
  const InfoKeys: seq<string> := ["clock-period"]

  /** `any(k in line.lower() for k in keys)`. */
  predicate LineHas(line: string, keys: seq<string>) {
    exists j :: 0 <= j < |keys| && Contains(Lower(line), keys[j])
  }

  /** One of the classifier's scans: stops at the first line holding a key. */
  function AnyLineHas(lines: seq<string>, keys: seq<string>): (r: bool)
    ensures r <==> exists i :: 0 <= i < |lines| && LineHas(lines[i], keys)
  {
    if lines == [] then false
    else if LineHas(lines[0], keys) then true
    else
      var rest := AnyLineHas(lines[1..], keys);
      assert forall i :: 1 <= i < |lines| ==> lines[i] == lines[1..][i - 1];
      rest
  }

  /**
    classify_severity: a full scan for critical keys, then a full scan for warn
    keys, else info.
  */
  function ClassifySeverity(lines: seq<string>): (r: Severity)
    ensures r == Critical <==> exists i :: 0 <= i < |lines| && LineHas(lines[i], CriticalKeys)
    ensures r == Warn <==> (forall i :: 0 <= i < |lines| ==> !LineHas(lines[i], CriticalKeys)) &&
                           exists i :: 0 <= i < |lines| && LineHas(lines[i], WarnKeys)
    ensures r == Info <==> forall i :: 0 <= i < |lines| ==>
                             !LineHas(lines[i], CriticalKeys) && !LineHas(lines[i], WarnKeys)
  {
    if AnyLineHas(lines, CriticalKeys) then Critical
    else if AnyLineHas(lines, WarnKeys) then Warn
    else Info
  }

  /** A critical line decides the result wherever it stands and whatever else is there. */
  lemma CriticalOutranksWarn(before: seq<string>, line: string, after: seq<string>)
    requires LineHas(line, CriticalKeys)
    ensures ClassifySeverity(before + [line] + after) == Critical
  {
    assert (before + [line] + after)[|before|] == line;
  }

  /** The result depends only on which lines occur, not on their order or multiplicity. */
  lemma ClassifyDependsOnLineSet(a: seq<string>, b: seq<string>)
    requires forall l :: l in a <==> l in b
    ensures ClassifySeverity(a) == ClassifySeverity(b)
  {
    SameLinesSameScan(a, b, CriticalKeys);
    SameLinesSameScan(a, b, WarnKeys);
  }

  lemma SameLinesSameScan(a: seq<string>, b: seq<string>, keys: seq<string>)
    requires forall l :: l in a <==> l in b
    ensures AnyLineHas(a, keys) == AnyLineHas(b, keys)
  {
    if i :| 0 <= i < |a| && LineHas(a[i], keys) {
      assert a[i] in b;
    }
    if i :| 0 <= i < |b| && LineHas(b[i], keys) {
      assert b[i] in a;
    }
  }

  function LowerAll(lines: seq<string>): (r: seq<string>)
    ensures |r| == |lines|
  {
    seq(|lines|, i requires 0 <= i < |lines| => Lower(lines[i]))
  }

  /** Lower-casing the lines first changes nothing: the classifier ignores case. */
  lemma ClassifyIgnoresCase(lines: seq<string>)
    ensures ClassifySeverity(LowerAll(lines)) == ClassifySeverity(lines)
  {
    forall i | 0 <= i < |lines|
      ensures LineHas(LowerAll(lines)[i], CriticalKeys) == LineHas(lines[i], CriticalKeys)
      ensures LineHas(LowerAll(lines)[i], WarnKeys) == LineHas(lines[i], WarnKeys)
    {
      LowerIdempotent(lines[i]);
    }
  }

  /** `ln.startswith("+") and not ln.startswith("+++")`. */
  predicate IsAddedLine(l: string) {
    StartsWith(l, "+") && !StartsWith(l, "+++")
  }

  /** `ln.startswith("-") and not ln.startswith("---")`. */
  predicate IsRemovedLine(l: string) {
    StartsWith(l, "-") && !StartsWith(l, "---")
  }

  function CountAdded(lines: seq<string>): (r: nat)
    ensures r <= |lines|
  {
    if lines == [] then 0
    else (if IsAddedLine(lines[0]) then 1 else 0) + CountAdded(lines[1..])
  }

  function CountRemoved(lines: seq<string>): (r: nat)
    ensures r <= |lines|
  {
    if lines == [] then 0
    else (if IsRemovedLine(lines[0]) then 1 else 0) + CountRemoved(lines[1..])
  }

  /** Both counts split over concatenation of diff output. */
  lemma {:induction false} CountsAppend(a: seq<string>, b: seq<string>)
    ensures CountAdded(a + b) == CountAdded(a) + CountAdded(b)
    ensures CountRemoved(a + b) == CountRemoved(a) + CountRemoved(b)
  {
    if a == [] {
      assert a + b == b;
    } else {
      assert (a + b)[0] == a[0];
      assert (a + b)[1..] == a[1..] + b;
      CountsAppend(a[1..], b);
    }
  }

  /** No line is counted both ways. */
  lemma {:induction false} CountsDisjoint(lines: seq<string>)
    ensures CountAdded(lines) + CountRemoved(lines) <= |lines|
  {
    if lines != [] {
      CountsDisjoint(lines[1..]);
    }
  }

  /** The two file-header lines a unified diff starts with are never counted. */
  lemma HeadersNotCounted(fromFile: string, toFile: string, body: seq<string>)
    ensures CountAdded(["--- " + fromFile, "+++ " + toFile] + body) == CountAdded(body)
    ensures CountRemoved(["--- " + fromFile, "+++ " + toFile] + body) == CountRemoved(body)
  {
    var h := ["--- " + fromFile, "+++ " + toFile];
    assert h[0][..3] == "---" && h[0][..1] == "-";
    assert h[1][..3] == "+++" && h[1][..1] == "+";
    assert !IsAddedLine(h[0]) && !IsRemovedLine(h[0]);
    assert !IsAddedLine(h[1]) && !IsRemovedLine(h[1]);
    assert h[1..][1..] == [];
    assert CountAdded(h[1..]) == 0 && CountRemoved(h[1..]) == 0;
    CountsAppend(h, body);
  }

  /**
    As written, the header test also drops a changed line whose own text
    begins with the marker twice more: removing the configuration line "-- x"
    yields the diff line "--- x", which is not counted as removed.
  */
  lemma MarkerLikeLinesNotCounted(l: string)
    requires StartsWith(l, "--") || StartsWith(l, "++")
    ensures StartsWith(l, "--") ==> CountRemoved(["-" + l]) == 0
    ensures StartsWith(l, "++") ==> CountAdded(["+" + l]) == 0
  {
    assert ("-" + l)[..3] == "-" + l[..2];
    assert ("+" + l)[..3] == "+" + l[..2];
  }

  /**
    A hunk line the diff marks as added or removed, by its first character:
    hunk headers start with '@' and context lines with a space.
  */
  predicate IsChangedLine(l: string) {
    StartsWith(l, "+") || StartsWith(l, "-")
  }

  /** The hunk lines of a unified diff: all that follows the "---" and "+++" file headers. */
  function HunkLines(lines: seq<string>): (r: seq<string>)
    ensures |lines| >= 2 ==> r == lines[2..]
    ensures |lines| < 2 ==> r == []
  {
    if |lines| < 2 then [] else lines[2..]
  }

  /**
    The changed lines among some hunk lines, each once. Every line the two
    counts count is one of them, and so is a changed line whose text begins
    with its marker twice more, which the counts skip.
  */
  function ChangedLines(hunk: seq<string>): (r: seq<string>)
    ensures forall l :: l in r <==> l in hunk && IsChangedLine(l)
    ensures CountAdded(hunk) + CountRemoved(hunk) <= |r| <= |hunk|
  {
    if hunk == [] then []
    else
      var rest := ChangedLines(hunk[1..]);
      assert forall l :: l in hunk <==> l == hunk[0] || l in hunk[1..];
      assert IsAddedLine(hunk[0]) || IsRemovedLine(hunk[0]) ==> IsChangedLine(hunk[0]);
      if IsChangedLine(hunk[0]) then [hunk[0]] + rest else rest
  }

  /**
    The classification classify_severity's documentation describes: keys are
    looked for in the added and removed lines only, never in the two file
    headers, the hunk headers or the context lines.
  */
  function ClassifyChanges(lines: seq<string>): (r: Severity)
    ensures r == Critical <==>
              exists i :: 2 <= i < |lines| && IsChangedLine(lines[i]) && LineHas(lines[i], CriticalKeys)
    ensures r == Warn <==>
              (forall i :: 2 <= i < |lines| && IsChangedLine(lines[i]) ==> !LineHas(lines[i], CriticalKeys)) &&
              exists i :: 2 <= i < |lines| && IsChangedLine(lines[i]) && LineHas(lines[i], WarnKeys)
    ensures r == Info <==> forall i :: 2 <= i < |lines| && IsChangedLine(lines[i]) ==>
                             !LineHas(lines[i], CriticalKeys) && !LineHas(lines[i], WarnKeys)
  {
    var changed := ChangedLines(HunkLines(lines));
    ScanChanged(lines, CriticalKeys);
    ScanChanged(lines, WarnKeys);
    ClassifySeverity(changed)
  }

  /** Scanning the changed lines finds a key exactly when some changed hunk line of the diff holds one. */
  lemma ScanChanged(lines: seq<string>, keys: seq<string>)
    ensures AnyLineHas(ChangedLines(HunkLines(lines)), keys) <==>
              exists i :: 2 <= i < |lines| && IsChangedLine(lines[i]) && LineHas(lines[i], keys)
  {
    var hunk := HunkLines(lines);
    var changed := ChangedLines(hunk);
    if j :| 0 <= j < |changed| && LineHas(changed[j], keys) {
      assert changed[j] in hunk;
      var k :| 0 <= k < |hunk| && hunk[k] == changed[j];
      assert lines[k + 2] == hunk[k];
    }
    if i :| 2 <= i < |lines| && IsChangedLine(lines[i]) && LineHas(lines[i], keys) {
      assert hunk[i - 2] == lines[i];
      assert lines[i] in changed;
    }
  }

  /** Context lines, wherever they stand among the hunk lines, do not change the corrected classification. */
  lemma ContextLinesIgnored(before: seq<string>, context: string, after: seq<string>)
    requires |before| >= 2 && !IsChangedLine(context)
    ensures ClassifyChanges(before + [context] + after) == ClassifyChanges(before + after)
  {
    var a, b := before + [context] + after, before + after;
    assert HunkLines(a) == before[2..] + [context] + after;
    assert HunkLines(b) == before[2..] + after;
    assert forall l :: l in ChangedLines(HunkLines(a)) <==> l in ChangedLines(HunkLines(b)) by {
      assert forall l :: l in HunkLines(a) <==> l in HunkLines(b) || l == context;
    }
    ClassifyDependsOnLineSet(ChangedLines(HunkLines(a)), ChangedLines(HunkLines(b)));
  }

  /**
    The two classifications agree on every diff in which only added and
    removed hunk lines hold a key.
  */
  lemma ClassifiersAgree(lines: seq<string>)
    requires forall i :: 0 <= i < |lines| && (i < 2 || !IsChangedLine(lines[i])) ==>
               !LineHas(lines[i], CriticalKeys) && !LineHas(lines[i], WarnKeys)
    ensures ClassifySeverity(lines) == ClassifyChanges(lines)
  {
  }

  /** What diff_and_record returns. */
  datatype Detection = Detection(severity: Severity, stats: DiffStats, snapshotId: int)

  /** The one property of difflib.unified_diff the model relies on. */
  ghost predicate IdenticalTextsGiveEmptyDiff(unifiedDiff: (Text, Text) -> seq<string>) {
    forall t :: unifiedDiff(t, t) == []
  }

  /**
    diff_and_record. `unifiedDiff(base, new)` stands for
    `list(difflib.unified_diff(base.splitlines(), new.splitlines(), lineterm=""))`.
  */
  method DiffAndRecord(db: BaselineDb, d: DeviceId, text: Text, unifiedDiff: (Text, Text) -> seq<string>)
    returns (r: Detection)
    requires db.Ready()
    modifies db`snapshots, db`events
    ensures db.Ready()
    ensures r.snapshotId == |old(db.snapshots)| + 1
    ensures db.snapshots == old(db.snapshots) + [Snapshot(r.snapshotId, d, text, db.sha256(text))]
    ensures d !in db.baseline ==>
              r == Detection(Info, DiffStats(0, 0), r.snapshotId) && db.events == old(db.events)
    ensures d in db.baseline ==>
              var lines := unifiedDiff(db.BaselineText(d), text);
              && r.severity == ClassifySeverity(lines)
              && r.stats == DiffStats(CountAdded(lines), CountRemoved(lines))
              && db.events == old(db.events) +
                   (if r.severity == Info then []
                    else [DeviationEvent(|old(db.events)| + 1, d, r.snapshotId, r.severity, r.stats)])
    ensures d in db.baseline && IdenticalTextsGiveEmptyDiff(unifiedDiff) && db.BaselineText(d) == text ==>
              r.severity == Info && r.stats == DiffStats(0, 0) && db.events == old(db.events)
  {
    var sha := db.sha256(text);
    var snapshotId := db.InsertSnapshot(d, text, sha);
    assert db.Valid() && db.Consistent();
    assert db.SnapshotOf(snapshotId, d);
    if d !in db.baseline {
      return Detection(Info, DiffStats(0, 0), snapshotId);
    }
    var baseText := db.snapshots[db.baseline[d].snapshotId - 1].text;
    assert baseText == db.BaselineText(d);
    var lines := unifiedDiff(baseText, text);
    var added := CountAdded(lines);
    var removed := CountRemoved(lines);
    var severity := ClassifySeverity(lines);
    if severity != Info {
      var _ := db.InsertDeviationEvent(d, snapshotId, severity, DiffStats(added, removed));
    }
    r := Detection(severity, DiffStats(added, removed), snapshotId);
  }
}
