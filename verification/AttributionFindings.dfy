/** The audit, apply and rollback reports, read off the rows of the tables. */
module AttributionFindings {
  import opened Prelude
  import opened PyText
  import opened Attribution
  import opened AttributionProofs

  // ----- what a column says ----------------------------------------------------------

  /** The column, its blanks cut off, is the project id `p`: a text that is neither empty nor the placeholder. */
  ghost predicate Says(column: Option<string>, p: string) {
    column.Some? && p == Strip(column.value) && p != "" && p != "invoice"
  }

  lemma ValidExactly(column: Option<string>, p: string)
    ensures ValidProjectId(column) == Some(p) <==> Says(column, p)
    ensures ValidProjectId(column).None? <==> forall q :: !Says(column, q)
  {
    if column.Some? {
      assert ValidProjectId(column).Some? ==> Says(column, Strip(column.value));
    } else {
      assert Strip("") == "";
    }
  }

  /** The receipt's own column says the project, and the receipt's company has it. */
  ghost predicate OwnProject(t: Tables, r: Receipt, p: string) {
    Says(r.projectId, p) && (r.companyId, p) in t.projects
  }

  ghost predicate PhotoSays(t: Tables, r: Receipt, p: string)
    requires r.photoId in t.photos
  {
    Says(t.photos[r.photoId], p) && (r.companyId, p) in t.projects
  }

  ghost predicate EmployeeSays(t: Tables, r: Receipt, p: string) {
    && r.employeeId.Some? && (r.companyId, r.employeeId.value) in t.employees
    && Says(t.employees[(r.companyId, r.employeeId.value)], p) && (r.companyId, p) in t.projects
  }

  /** The projects of the receipt's company that its photo or its employee names. */
  ghost function Named(t: Tables, r: Receipt): set<string>
    requires r.photoId in t.photos
  {
    set q | q in t.projects && q.0 == r.companyId && (PhotoSays(t, r, q.1) || EmployeeSays(t, r, q.1)) :: q.1
  }

  // ----- the classes of receipts -------------------------------------------------------

  lemma NamedExactly(t: Tables, r: Receipt, p: string)
    requires r.photoId in t.photos
    ensures p in Named(t, r) <==> PhotoSays(t, r, p) || EmployeeSays(t, r, p)
  {
    if PhotoSays(t, r, p) || EmployeeSays(t, r, p) {
      assert (r.companyId, p) in t.projects;
    }
  }

  lemma OwnExactly(t: Tables, r: Receipt)
    ensures (ValidProjectId(r.projectId).Some? && ProjectExists(t, r.companyId, ValidProjectId(r.projectId)))
            <==> exists p :: OwnProject(t, r, p)
  {
    if ValidProjectId(r.projectId).Some? {
      ValidExactly(r.projectId, ValidProjectId(r.projectId).value);
    }
    forall p {
      ValidExactly(r.projectId, p);
    }
    hide ValidProjectId, Says;
    if ValidProjectId(r.projectId).Some? && ProjectExists(t, r.companyId, ValidProjectId(r.projectId)) {
      assert OwnProject(t, r, ValidProjectId(r.projectId).value);
    }
  }

  lemma PhotoExactly(t: Tables, r: Receipt, p: string)
    requires r.photoId in t.photos
    ensures PhotoSays(t, r, p) <==> ProjectExists(t, r.companyId, PhotoProject(t, r)) && PhotoProject(t, r) == Some(p)
  {
    ValidExactly(t.photos[r.photoId], p);
    hide ValidProjectId;
  }

  lemma EmployeeExactly(t: Tables, r: Receipt, p: string)
    ensures EmployeeSays(t, r, p)
            <==> ProjectExists(t, r.companyId, EmployeeProject(t, r)) && EmployeeProject(t, r) == Some(p)
  {
    if r.employeeId.Some? && (r.companyId, r.employeeId.value) in t.employees {
      ValidExactly(t.employees[(r.companyId, r.employeeId.value)], p);
    }
    hide ValidProjectId;
  }

  /** The rules a suggestion of `p` rests on. */
  ghost predicate RestsOn(t: Tables, r: Receipt, p: string, rules: seq<Rule>)
    requires r.photoId in t.photos
  {
    rules == (if PhotoSays(t, r, p) then [PhotoProjectId] else [])
             + if EmployeeSays(t, r, p) then [EmployeeCurrentProject] else []
  }

  /**
   * A receipt is attributed exactly if its own column says an existing project. Otherwise it is suggested, ambiguous or
   * without a candidate exactly as its photo and its employee name one existing project, two, or none.
   */
  lemma ClassifyExactly(t: Tables, r: Receipt)
    requires r.photoId in t.photos
    ensures var f := Classify(t, r);
            && (f.Attributed? <==> exists p :: OwnProject(t, r, p))
            && (!f.Attributed? ==>
                  && (f.Suggested? <==> |Named(t, r)| == 1)
                  && (f.Ambiguous? <==> |Named(t, r)| == 2)
                  && (f.NoCandidate? <==> Named(t, r) == {})
                  && (f.Suggested? ==> Named(t, r) == {f.projectId} && RestsOn(t, r, f.projectId, f.rules)))
  {
    OwnExactly(t, r);
    var photo, employee := PhotoProject(t, r), EmployeeProject(t, r);
    var a := if ProjectExists(t, r.companyId, photo) then {photo.value} else {};
    var b := if ProjectExists(t, r.companyId, employee) then {employee.value} else {};
    forall p
      ensures PhotoSays(t, r, p) <==> p in a
      ensures EmployeeSays(t, r, p) <==> p in b
      ensures p in Named(t, r) <==> p in a + b
    {
      NamedExactly(t, r, p);
      PhotoExactly(t, r, p);
      EmployeeExactly(t, r, p);
    }
    hide PhotoSays, EmployeeSays, Named, PhotoProject, EmployeeProject, OwnProject;
    assert Named(t, r) == a + b;
  }

  // ----- the totals and the candidates -----------------------------------------------------

  ghost predicate InClass(f: Finding, g: Finding) {
    match f
    case Attributed => g.Attributed?
    case Suggested(_, _) => g.Suggested?
    case Ambiguous => g.Ambiguous?
    case NoCandidate => g.NoCandidate?
  }

  /** The positions of the scanned receipts that are found to be in the class of `f`. */
  ghost function Found(t: Tables, rows: seq<string>, f: Finding): set<int>
    requires Scannable(t, rows)
  {
    set i | 0 <= i < |rows| && InClass(f, FindingOf(t, rows[i]))
  }

  lemma FoundOneMore(t: Tables, rows: seq<string>, f: Finding)
    requires Scannable(t, rows) && rows != []
    ensures var n := |rows| - 1;
            |Found(t, rows, f)| == |Found(t, rows[..n], f)| + if InClass(f, FindingOf(t, rows[n])) then 1 else 0
  {
    hide InClass, FindingOf, Photographed;
    var n := |rows| - 1;
    var a, b := Found(t, rows[..n], f), Found(t, rows, f);
    forall i: int
      ensures i in b <==> i in a || (i == n && InClass(f, FindingOf(t, rows[n])))
    {
      assert 0 <= i < n ==> rows[..n][i] == rows[i];
    }
    assert n !in a;
    hide Found;
    assert b == a + if InClass(f, FindingOf(t, rows[n])) then {n} else {};
  }

  /** Each total is the number of scanned receipts found in its class. */
  lemma {:induction false} TotalsExactly(t: Tables, rows: seq<string>)
    requires Scannable(t, rows)
    ensures var n := TotalsOf(t, rows);
            && n.scanned == |rows|
            && n.attributed == |Found(t, rows, Attributed)|
            && n.suggested == |Found(t, rows, Suggested("", []))|
            && n.ambiguous == |Found(t, rows, Ambiguous)|
            && n.noCandidate == |Found(t, rows, NoCandidate)|
  {
    if rows != [] {
      TotalsExactly(t, rows[..|rows| - 1]);
      FoundOneMore(t, rows, Attributed);
      FoundOneMore(t, rows, Suggested("", []));
      FoundOneMore(t, rows, Ambiguous);
      FoundOneMore(t, rows, NoCandidate);
      hide FindingOf, Found;
    }
  }

  /** The candidate reports the finding of the receipt. */
  ghost predicate Reports(t: Tables, c: Candidate, id: string)
    requires Photographed(t, id)
  {
    && c.receiptId == id && c.companyId == t.receipts[id].companyId
    && match FindingOf(t, id)
       case Suggested(p, rules) => c.projectId == Some(p) && c.rules == rules
       case Ambiguous => c.projectId == None && c.rules == [PhotoProjectId, EmployeeCurrentProject]
       case _ => false
  }

  /** The scanned receipts that are suggested or ambiguous, in scan order. */
  ghost function ToReport(t: Tables, rows: seq<string>): seq<string>
    requires Scannable(t, rows)
  {
    if rows == [] then []
    else
      var f := FindingOf(t, rows[|rows| - 1]);
      ToReport(t, rows[..|rows| - 1]) + if f.Suggested? || f.Ambiguous? then [rows[|rows| - 1]] else []
  }

  lemma {:induction false} ToReportIsScanned(t: Tables, rows: seq<string>)
    requires Scannable(t, rows)
    ensures Scannable(t, ToReport(t, rows))
  {
    hide FindingOf;
    if rows != [] {
      ToReportIsScanned(t, rows[..|rows| - 1]);
    }
  }

  /** The candidates report exactly these receipts, in that order. */
  lemma {:induction false} CandidatesExactly(t: Tables, rows: seq<string>)
    requires Scannable(t, rows)
    ensures Scannable(t, ToReport(t, rows)) && |CandidatesOf(t, rows)| == |ToReport(t, rows)|
    ensures forall i :: 0 <= i < |ToReport(t, rows)| ==> Reports(t, CandidatesOf(t, rows)[i], ToReport(t, rows)[i])
  {
    ToReportIsScanned(t, rows);
    hide FindingOf;
    if rows != [] {
      CandidatesExactly(t, rows[..|rows| - 1]);
    }
  }

  // ----- what apply skips ----------------------------------------------------------------------

  /** Why a candidate is skipped, on the rows. */
  ghost predicate IsReason(t: Tables, c: Candidate, reason: Reason) {
    var id := Strip(c.receiptId);
    var missing := id == "" || forall p :: !Says(c.projectId, p);
    match reason
    case MissingCandidateProject => missing
    case ReceiptMissing => !missing && id !in t.receipts
    case AlreadyAttributed => !missing && id in t.receipts && exists p :: Says(t.receipts[id].projectId, p)
    case CandidateProjectMissing =>
      && !missing && id in t.receipts && (forall p :: !Says(t.receipts[id].projectId, p))
      && forall p :: Says(c.projectId, p) ==> (t.receipts[id].companyId, p) !in t.projects
    case CurrentProjectChanged => false
  }

  lemma ObstacleExactly(t: Tables, c: Candidate, reason: Reason)
    ensures Obstacle(t, c) == Some(reason) <==> IsReason(t, c, reason)
  {
    var id, project := Strip(c.receiptId), ValidProjectId(c.projectId);
    forall p {
      ValidExactly(c.projectId, p);
    }
    if id in t.receipts {
      forall p {
        ValidExactly(t.receipts[id].projectId, p);
      }
      var own := ValidProjectId(t.receipts[id].projectId);
      assert own.Some? ==> Says(t.receipts[id].projectId, own.value);
    }
    assert project.Some? ==> Says(c.projectId, project.value) && project.value != "";
    hide ValidProjectId, Says, Strip;
  }

  /** Every candidate is applied or skipped; one more is skipped for the reason that holds when its turn comes. */
  lemma {:induction false} SkipsExactly(t: Tables, candidates: seq<Candidate>, c: Candidate)
    ensures var a, b := ApplyAll(t, candidates), ApplyAll(t, candidates + [c]);
            && (forall reason :: IsReason(a.tables, c, reason) ==>
                  b == a.(skipped := a.skipped + [Skip(Strip(c.receiptId), reason)]))
            && ((forall reason :: !IsReason(a.tables, c, reason)) ==>
                  b.skipped == a.skipped && |b.applied| == |a.applied| + 1)
  {
    var a := ApplyAll(t, candidates);
    assert (candidates + [c])[..|candidates|] == candidates;
    assert ApplyAll(t, candidates + [c]) == ApplyOne(a, c);
    forall reason {
      ObstacleExactly(a.tables, c, reason);
    }
    hide ApplyAll, IsReason, Obstacle, Strip, ValidProjectId;
    if Obstacle(a.tables, c).Some? {
      assert IsReason(a.tables, c, Obstacle(a.tables, c).value);
    }
  }

  // ----- what rollback reports --------------------------------------------------------------------

  /** The receipt of the entry is there and still holds what was applied. */
  ghost predicate StillApplied(t: Tables, e: Entry) {
    e.receiptId in t.receipts && t.receipts[e.receiptId].projectId == Some(e.applied)
  }

  ghost function RestoredOf(t: Tables, entries: seq<Entry>): seq<Entry> {
    if entries == [] then []
    else
      var e := entries[|entries| - 1];
      RestoredOf(t, entries[..|entries| - 1]) + if StillApplied(t, e) then [e] else []
  }

  ghost function SkippedOf(t: Tables, entries: seq<Entry>): seq<Skip> {
    if entries == [] then []
    else
      var e := entries[|entries| - 1];
      var reason := if e.receiptId in t.receipts then CurrentProjectChanged else ReceiptMissing;
      SkippedOf(t, entries[..|entries| - 1]) + if StillApplied(t, e) then [] else [Skip(e.receiptId, reason)]
  }

  /** Of a file apply has written, exactly the entries still applied are reported as restored, the others with a reason. */
  lemma {:induction false} RollbackReportsExactly(t: Tables, entries: seq<Entry>)
    requires GoodLog(entries)
    ensures RollbackAll(t, entries).restored == RestoredOf(t, entries)
    ensures RollbackAll(t, entries).skipped == SkippedOf(t, entries)
  {
    if entries != [] {
      var front, e := entries[..|entries| - 1], entries[|entries| - 1];
      SplitLast(entries);
      assert forall i :: 0 <= i < |front| ==> front[i] == entries[i];
      assert !Logged(front, e.receiptId);
      RollbackReportsExactly(t, front);
      RollbackExactly(t, front);
      assert GoodEntry(e);
      var before := RollbackAll(t, front);
      assert e.receiptId in before.tables.receipts <==> e.receiptId in t.receipts;
      assert e.receiptId in t.receipts ==> before.tables.receipts[e.receiptId] == t.receipts[e.receiptId];
      hide Undone, GoodLog, Strip, ValidProjectId, Logged;
      assert RollbackAll(t, entries) == RollbackOne(before, e);
    }
  }

  // ----- which receipts are scanned -------------------------------------------------

  /** The receipts that have a photo, lie in the window, and belong to the company if one is named. */
  ghost function Matching(t: Tables, q: Query): set<string> {
    set id | id in t.receipts
      && t.receipts[id].photoId in t.photos
      && q.since <= At(t, id) <= q.until
      && (q.companyId == None || q.companyId == Some("") || q.companyId == Some(t.receipts[id].companyId))
  }

  /** When the receipt was issued, or when it was stored if that is not known. */
  ghost function At(t: Tables, id: string): int
    requires id in t.receipts
  {
    match t.receipts[id].receiptTimestamp
    case Some(issued) => issued
    case None => t.receipts[id].createdAt
  }

  ghost function Newer(t: Tables, q: Query, id: string): set<string>
    requires id in t.receipts
  {
    set other | other in Matching(t, q) && At(t, other) > At(t, id)
  }

  ghost function AsNew(t: Tables, q: Query, id: string): set<string>
    requires id in t.receipts
  {
    set other | other in Matching(t, q) && At(t, other) >= At(t, id)
  }

  lemma MatchingExactly(t: Tables, q: Query, id: string)
    ensures Eligible(t, q, id) <==> id in Matching(t, q)
    ensures id in Matching(t, q) ==> id in t.receipts
    ensures id in t.receipts ==> ObservedAt(t.receipts[id]) == At(t, id)
  {
  }

  lemma {:induction false} ElementsCounted(rows: seq<string>)
    requires forall i, j :: 0 <= i < j < |rows| ==> rows[i] != rows[j]
    ensures |set id | id in rows| == |rows|
  {
    if rows == [] {
      assert (set id | id in rows) == {};
    } else {
      var n := |rows| - 1;
      ElementsCounted(rows[..n]);
      assert rows == rows[..n] + [rows[n]];
      assert (set id | id in rows) == (set id | id in rows[..n]) + {rows[n]};
    }
  }

  lemma SubsetCounted(a: set<string>, b: set<string>)
    requires a <= b
    ensures |a| <= |b|
    ensures a != b ==> |a| < |b|
  {
    assert b == a + (b - a);
    if a != b {
      assert b - a != {};
    }
  }

  /**
   * The scan takes the newest of the matching receipts up to the limit: as many as there are, or the limit; each one
   * that ranks within the limit however ties are broken; and none that does not however they are.
   */
  lemma ScanExactly(t: Tables, q: Query, rows: seq<string>, id: string)
    requires IsScan(t, q, rows)
    ensures |rows| == if |Matching(t, q)| <= q.limit then |Matching(t, q)| else q.limit
    ensures id in rows ==> id in Matching(t, q) && |Newer(t, q, id)| < q.limit
    ensures id in Matching(t, q) && |AsNew(t, q, id)| <= q.limit ==> id in rows
  {
    forall x {
      MatchingExactly(t, q, x);
    }
    hide Eligible, ObservedAt, Matching, At;
    var scanned := set x | x in rows;
    ElementsCounted(rows);
    assert scanned <= Matching(t, q);
    SubsetCounted(scanned, Matching(t, q));
    if |rows| < q.limit {
      assert scanned == Matching(t, q);
    }
    if id in rows {
      forall x | x in Newer(t, q, id)
        ensures x in scanned
      {
        NewerIsScanned(t, q, rows, id, x);
      }
      assert id !in Newer(t, q, id);
      SubsetCounted(Newer(t, q, id), scanned);
    }
    if id in Matching(t, q) && id !in rows && |AsNew(t, q, id)| <= q.limit {
      forall x | x in scanned
        ensures x in AsNew(t, q, id)
      {
        var i :| 0 <= i < |rows| && rows[i] == x;
      }
      assert id in AsNew(t, q, id);
      SubsetCounted(scanned, AsNew(t, q, id));
      assert false;
    }
  }

  lemma NewerIsScanned(t: Tables, q: Query, rows: seq<string>, id: string, x: string)
    requires IsScan(t, q, rows) && id in rows && id in t.receipts && x in Newer(t, q, id)
    ensures x in rows
  {
    MatchingExactly(t, q, x);
    MatchingExactly(t, q, id);
    var i :| 0 <= i < |rows| && rows[i] == id;
  }
}
