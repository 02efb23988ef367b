/** Receipt attribution: the audit that suggests projects, the apply that records what it changed, and the rollback. */
module Attribution {
  import opened Prelude
  import opened PyText

  // ----- tables ------------------------------------------------------------

  datatype Receipt = Receipt(
    companyId: string,
    projectId: Option<string>,
    photoId: int,
    employeeId: Option<string>,
    receiptTimestamp: Option<int>,
    createdAt: int)

  /** Photos and employees carry the project they point to; employees are keyed by company and employee id. */
  datatype Tables = Tables(
    receipts: map<string, Receipt>,
    photos: map<int, Option<string>>,
    employees: map<(string, string), Option<string>>,
    projects: set<(string, string)>)

  /** The stripped project id, unless it is empty or the placeholder "invoice". */
  function ValidProjectId(value: Option<string>): Option<string> {
    var text := Strip(value.GetOr(""));
    if text == "" || text == "invoice" then None else Some(text)
  }

  predicate ProjectExists(t: Tables, companyId: string, projectId: Option<string>) {
    projectId.Some? && projectId.value != "" && (companyId, projectId.value) in t.projects
  }

  // ----- the audit -----------------------------------------------------------

  datatype Query = Query(companyId: Option<string>, since: int, until: int, limit: int)

  function ObservedAt(r: Receipt): int {
    r.receiptTimestamp.GetOr(r.createdAt)
  }

  predicate Eligible(t: Tables, q: Query, id: string) {
    && Photographed(t, id)
    && q.since <= ObservedAt(t.receipts[id]) <= q.until
    && (q.companyId.Some? && q.companyId.value != "" ==> t.receipts[id].companyId == q.companyId.value)
  }

  /** What the query may return: the most recent eligible receipts, each once, up to the limit. */
  ghost predicate IsScan(t: Tables, q: Query, rows: seq<string>) {
    && |rows| <= q.limit
    && (forall i :: 0 <= i < |rows| ==> Eligible(t, q, rows[i]))
    && (forall i, j :: 0 <= i < j < |rows| ==>
          rows[i] != rows[j] && ObservedAt(t.receipts[rows[i]]) >= ObservedAt(t.receipts[rows[j]]))
    && (forall id, i :: Eligible(t, q, id) && id !in rows && 0 <= i < |rows| ==>
          ObservedAt(t.receipts[rows[i]]) >= ObservedAt(t.receipts[id]))
    && (|rows| < q.limit ==> forall id :: Eligible(t, q, id) ==> id in rows)
  }

  datatype Rule = PhotoProjectId | EmployeeCurrentProject

  datatype Finding =
    | Attributed
    | Suggested(projectId: string, rules: seq<Rule>)
    | Ambiguous
    | NoCandidate

  function PhotoProject(t: Tables, r: Receipt): Option<string>
    requires r.photoId in t.photos
  {
    ValidProjectId(t.photos[r.photoId])
  }

  function EmployeeProject(t: Tables, r: Receipt): Option<string> {
    if r.employeeId.Some? && (r.companyId, r.employeeId.value) in t.employees then
      ValidProjectId(t.employees[(r.companyId, r.employeeId.value)])
    else None
  }

  function Classify(t: Tables, r: Receipt): Finding
    requires r.photoId in t.photos
  {
    var current := ValidProjectId(r.projectId);
    if current.Some? && ProjectExists(t, r.companyId, current) then Attributed
    else
      var photo, employee := PhotoProject(t, r), EmployeeProject(t, r);
      match (ProjectExists(t, r.companyId, photo), ProjectExists(t, r.companyId, employee))
      case (false, false) => NoCandidate
      case (true, false) => Suggested(photo.value, [PhotoProjectId])
      case (false, true) => Suggested(employee.value, [EmployeeCurrentProject])
      case (true, true) =>
        if photo.value == employee.value then Suggested(photo.value, [PhotoProjectId, EmployeeCurrentProject])
        else Ambiguous
  }

  /** One line of the report; an ambiguous receipt is listed without a project. */
  datatype Candidate = Candidate(receiptId: string, companyId: string, projectId: Option<string>, rules: seq<Rule>)

  function CandidateFor(id: string, r: Receipt, f: Finding): (cs: seq<Candidate>)
    ensures |cs| <= 1
  {
    match f
    case Suggested(p, rules) => [Candidate(id, r.companyId, Some(p), rules)]
    case Ambiguous => [Candidate(id, r.companyId, None, [PhotoProjectId, EmployeeCurrentProject])]
    case _ => []
  }

  datatype Totals = Totals(scanned: nat, attributed: nat, suggested: nat, ambiguous: nat, noCandidate: nat)

  function Plus(a: Totals, f: Finding): Totals {
    match f
    case Attributed => a.(scanned := a.scanned + 1, attributed := a.attributed + 1)
    case Suggested(_, _) => a.(scanned := a.scanned + 1, suggested := a.suggested + 1)
    case Ambiguous => a.(scanned := a.scanned + 1, ambiguous := a.ambiguous + 1)
    case NoCandidate => a.(scanned := a.scanned + 1, noCandidate := a.noCandidate + 1)
  }

  /** The receipt is there, and so is the photo the audit joins it with. */
  predicate Photographed(t: Tables, id: string) {
    id in t.receipts && t.receipts[id].photoId in t.photos
  }

  predicate Scannable(t: Tables, rows: seq<string>) {
    forall i :: 0 <= i < |rows| ==> Photographed(t, rows[i])
  }

  function FindingOf(t: Tables, id: string): Finding
    requires Photographed(t, id)
  {
    Classify(t, t.receipts[id])
  }

  function TotalsOf(t: Tables, rows: seq<string>): Totals
    requires Scannable(t, rows)
  {
    if rows == [] then Totals(0, 0, 0, 0, 0)
    else Plus(TotalsOf(t, rows[..|rows| - 1]), FindingOf(t, rows[|rows| - 1]))
  }

  function CandidatesOf(t: Tables, rows: seq<string>): seq<Candidate>
    requires Scannable(t, rows)
  {
    if rows == [] then []
    else
      var id := rows[|rows| - 1];
      CandidatesOf(t, rows[..|rows| - 1]) + CandidateFor(id, t.receipts[id], FindingOf(t, id))
  }

  // ----- apply and rollback as functions of the tables ------------------------------

  /** One entry of the rollback file. */
  datatype Entry = Entry(receiptId: string, companyId: string, previous: Option<string>, applied: string, rules: seq<Rule>)

  datatype Reason =
    | MissingCandidateProject
    | ReceiptMissing
    | AlreadyAttributed
    | CandidateProjectMissing
    | CurrentProjectChanged

  datatype Skip = Skip(receiptId: string, reason: Reason)

  datatype Applying = Applying(tables: Tables, applied: seq<Entry>, skipped: seq<Skip>)

  function SetProject(t: Tables, id: string, projectId: Option<string>): Tables
    requires id in t.receipts
  {
    t.(receipts := t.receipts[id := t.receipts[id].(projectId := projectId)])
  }

  /** Why a candidate is skipped, if it is. */
  function Obstacle(t: Tables, c: Candidate): Option<Reason> {
    var id, project := Strip(c.receiptId), ValidProjectId(c.projectId);
    if id == "" || project.None? then Some(MissingCandidateProject)
    else if id !in t.receipts then Some(ReceiptMissing)
    else if ValidProjectId(t.receipts[id].projectId).Some? then Some(AlreadyAttributed)
    else if !ProjectExists(t, t.receipts[id].companyId, project) then Some(CandidateProjectMissing)
    else None
  }

  function ApplyOne(a: Applying, c: Candidate): Applying {
    var id, project := Strip(c.receiptId), ValidProjectId(c.projectId);
    match Obstacle(a.tables, c)
    case Some(reason) => a.(skipped := a.skipped + [Skip(id, reason)])
    case None =>
      var r := a.tables.receipts[id];
      Applying(
        SetProject(a.tables, id, project),
        a.applied + [Entry(id, r.companyId, r.projectId, project.value, c.rules)],
        a.skipped)
  }

  function ApplyAll(t: Tables, candidates: seq<Candidate>): Applying {
    if candidates == [] then Applying(t, [], [])
    else ApplyOne(ApplyAll(t, candidates[..|candidates| - 1]), candidates[|candidates| - 1])
  }

  datatype Restoring = Restoring(tables: Tables, restored: seq<Entry>, skipped: seq<Skip>)

  /** Restores one entry, if its receipt still holds the applied project id. */
  function RollbackOne(b: Restoring, e: Entry): Restoring {
    var id := Strip(e.receiptId);
    if id == "" || id !in b.tables.receipts then b.(skipped := b.skipped + [Skip(id, ReceiptMissing)])
    else if b.tables.receipts[id].projectId != Some(e.applied) then
      b.(skipped := b.skipped + [Skip(id, CurrentProjectChanged)])
    else Restoring(SetProject(b.tables, id, e.previous), b.restored + [e], b.skipped)
  }

  function RollbackAll(t: Tables, entries: seq<Entry>): Restoring {
    if entries == [] then Restoring(t, [], [])
    else RollbackOne(RollbackAll(t, entries[..|entries| - 1]), entries[|entries| - 1])
  }

  // ----- the commands -----------------------------------------------------------------

  class Store {
    var tables: Tables

    constructor (tables: Tables)
      ensures this.tables == tables
    {
      this.tables := tables;
    }

    /** Classifies the scanned receipts one by one. */
    method Audit(rows: seq<string>) returns (totals: Totals, candidates: seq<Candidate>)
      requires Scannable(tables, rows)
      ensures totals == TotalsOf(tables, rows)
      ensures candidates == CandidatesOf(tables, rows)
    {
      totals, candidates := Totals(0, 0, 0, 0, 0), [];
      for n := 0 to |rows|
        invariant totals == TotalsOf(tables, rows[..n])
        invariant candidates == CandidatesOf(tables, rows[..n])
      {
        var r := tables.receipts[rows[n]];
        assert rows[..n + 1][..n] == rows[..n];
        var finding := ClassifyReceipt(r);
        totals := Plus(totals, finding);
        candidates := candidates + CandidateFor(rows[n], r, finding);
      }
      assert rows[..|rows|] == rows;
    }

    /** The checks of one receipt, gathering the candidates and the distinct projects they name. */
    method ClassifyReceipt(r: Receipt) returns (finding: Finding)
      requires r.photoId in tables.photos
      ensures finding == Classify(tables, r)
    {
      var current := ValidProjectId(r.projectId);
      if current.Some? && ProjectExists(tables, r.companyId, current) {
        return Attributed;
      }
      var rules: seq<Rule> := [];
      var projects: seq<string> := [];
      var photo := PhotoProject(tables, r);
      if ProjectExists(tables, r.companyId, photo) {
        rules, projects := rules + [PhotoProjectId], projects + [photo.value];
      }
      var employee := EmployeeProject(tables, r);
      if ProjectExists(tables, r.companyId, employee) {
        rules := rules + [EmployeeCurrentProject];
        if employee.value !in projects {
          projects := projects + [employee.value];
        }
      }
      finding :=
        if |projects| == 1 then Suggested(projects[0], rules)
        else if |projects| > 1 then Ambiguous
        else NoCandidate;
    }

    /** Audits, then writes the suggested project into each receipt that has none, logging what it replaced. */
    method Apply(rows: seq<string>) returns (applied: seq<Entry>, skipped: seq<Skip>)
      requires Scannable(tables, rows)
      modifies this
      ensures Applying(tables, applied, skipped) == ApplyAll(old(tables), CandidatesOf(old(tables), rows))
    {
      var totals, candidates := Audit(rows);
      applied, skipped := [], [];
      for n := 0 to |candidates|
        invariant Applying(tables, applied, skipped) == ApplyAll(old(tables), candidates[..n])
      {
        var c := candidates[n];
        assert candidates[..n + 1][..n] == candidates[..n];
        var project, id := ValidProjectId(c.projectId), Strip(c.receiptId);
        if id == "" || project.None? {
          skipped := skipped + [Skip(id, MissingCandidateProject)];
          continue;
        }
        if id !in tables.receipts {
          skipped := skipped + [Skip(id, ReceiptMissing)];
          continue;
        }
        var r := tables.receipts[id];
        if ValidProjectId(r.projectId).Some? {
          skipped := skipped + [Skip(id, AlreadyAttributed)];
          continue;
        }
        if !ProjectExists(tables, r.companyId, project) {
          skipped := skipped + [Skip(id, CandidateProjectMissing)];
          continue;
        }
        tables := SetProject(tables, id, project);
        applied := applied + [Entry(id, r.companyId, r.projectId, project.value, c.rules)];
      }
      assert candidates[..|candidates|] == candidates;
    }

    /** Undoes the entries of a rollback file. */
    method Rollback(entries: seq<Entry>) returns (restored: seq<Entry>, skipped: seq<Skip>)
      modifies this
      ensures Restoring(tables, restored, skipped) == RollbackAll(old(tables), entries)
    {
      restored, skipped := [], [];
      for n := 0 to |entries|
        invariant Restoring(tables, restored, skipped) == RollbackAll(old(tables), entries[..n])
      {
        var e := entries[n];
        assert entries[..n + 1][..n] == entries[..n];
        var id := Strip(e.receiptId);
        if id == "" || id !in tables.receipts {
          skipped := skipped + [Skip(id, ReceiptMissing)];
          continue;
        }
        if tables.receipts[id].projectId != Some(e.applied) {
          skipped := skipped + [Skip(id, CurrentProjectChanged)];
          continue;
        }
        tables := SetProject(tables, id, e.previous);
        restored := restored + [e];
      }
      assert entries[..|entries|] == entries;
    }
  }
}
