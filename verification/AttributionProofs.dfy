/** What apply changes, what rollback restores, and how the audit sees the result. */
module AttributionProofs {
  import opened Prelude
  import opened PyText
  import opened Attribution

  /** A valid project id is valid as it stands. */
  lemma ValidTwice(value: Option<string>)
    requires ValidProjectId(value).Some?
    ensures ValidProjectId(ValidProjectId(value)) == ValidProjectId(value)
  {
    StripTwice(value.GetOr(""));
  }

  // ----- the log ------------------------------------------------------------------

  ghost predicate DistinctIds(entries: seq<Entry>) {
    forall i, j :: 0 <= i < j < |entries| ==> entries[i].receiptId != entries[j].receiptId
  }

  /** What an entry says: the id as looked up, a project id that is valid, and a replaced value that is not. */
  ghost predicate GoodEntry(e: Entry) {
    && e.receiptId != "" && Strip(e.receiptId) == e.receiptId
    && ValidProjectId(Some(e.applied)) == Some(e.applied)
    && ValidProjectId(e.previous).None?
  }

  ghost predicate GoodLog(entries: seq<Entry>) {
    DistinctIds(entries) && forall i :: 0 <= i < |entries| ==> GoodEntry(entries[i])
  }

  ghost predicate Logged(entries: seq<Entry>, id: string) {
    exists i :: 0 <= i < |entries| && entries[i].receiptId == id
  }

  /** The entry of a receipt. */
  ghost function EntryFor(entries: seq<Entry>, id: string): Entry
    requires Logged(entries, id)
  {
    var i :| 0 <= i < |entries| && entries[i].receiptId == id;
    entries[i]
  }

  lemma LoggedOneMore(entries: seq<Entry>, e: Entry, id: string)
    ensures Logged(entries + [e], id) <==> Logged(entries, id) || e.receiptId == id
    ensures DistinctIds(entries + [e]) && Logged(entries + [e], id) ==>
              EntryFor(entries + [e], id) == if e.receiptId == id then e else EntryFor(entries, id)
    ensures DistinctIds(entries + [e]) ==> DistinctIds(entries)
    ensures DistinctIds(entries) && !Logged(entries, e.receiptId) ==> DistinctIds(entries + [e])
    ensures DistinctIds(entries + [e]) ==> !Logged(entries, e.receiptId)
  {
    var longer := entries + [e];
    assert longer[|entries|] == e;
    assert forall i :: 0 <= i < |entries| ==> longer[i] == entries[i];
  }

  /** The receipts with every logged one holding its applied id. */
  ghost function Overlay(receipts: map<string, Receipt>, entries: seq<Entry>): map<string, Receipt> {
    map id | id in receipts ::
      if Logged(entries, id) then receipts[id].(projectId := Some(EntryFor(entries, id).applied)) else receipts[id]
  }

  // ----- what apply leaves ------------------------------------------------------------

  /** An entry tells the truth about the receipt it replaced, and names a project of that receipt's company. */
  ghost predicate TrueEntry(t: Tables, e: Entry) {
    && GoodEntry(e)
    && e.receiptId in t.receipts
    && e.previous == t.receipts[e.receiptId].projectId
    && e.companyId == t.receipts[e.receiptId].companyId
    && (e.companyId, e.applied) in t.projects
  }

  ghost predicate AppliedTo(t: Tables, a: Applying) {
    && DistinctIds(a.applied)
    && (forall i :: 0 <= i < |a.applied| ==> TrueEntry(t, a.applied[i]))
    && a.tables == t.(receipts := Overlay(t.receipts, a.applied))
  }

  /** A logged receipt already holds a valid project id. */
  lemma LoggedIsAttributed(t: Tables, a: Applying, id: string)
    requires AppliedTo(t, a)
    ensures Logged(a.applied, id) ==>
      id in a.tables.receipts && ValidProjectId(a.tables.receipts[id].projectId).Some?
  {
  }

  lemma ApplyOneLeaves(t: Tables, a: Applying, c: Candidate)
    requires AppliedTo(t, a)
    ensures AppliedTo(t, ApplyOne(a, c))
  {
    if Obstacle(a.tables, c).None? {
      var id, project := Strip(c.receiptId), ValidProjectId(c.projectId);
      StripTwice(c.receiptId);
      ValidTwice(c.projectId);
      LoggedIsAttributed(t, a, id);
      assert !Logged(a.applied, id);
      var r := a.tables.receipts[id];
      assert r == t.receipts[id];
      var e := Entry(id, r.companyId, r.projectId, project.value, c.rules);
      assert TrueEntry(t, e);
      hide ValidProjectId, Strip, TrueEntry;
      forall x: string {
        LoggedOneMore(a.applied, e, x);
      }
      assert Overlay(t.receipts, a.applied + [e]) == Overlay(t.receipts, a.applied)[id := r.(projectId := project)];
    }
  }

  /** Apply, on any list of candidates, changes logged receipts only, each logged once and truthfully. */
  lemma {:induction false} ApplyLeaves(t: Tables, candidates: seq<Candidate>)
    ensures AppliedTo(t, ApplyAll(t, candidates))
  {
    if candidates == [] {
      assert Overlay(t.receipts, []) == t.receipts;
    } else {
      ApplyLeaves(t, candidates[..|candidates| - 1]);
      ApplyOneLeaves(t, ApplyAll(t, candidates[..|candidates| - 1]), candidates[|candidates| - 1]);
    }
  }

  // ----- rollback -----------------------------------------------------------------------

  /** Restores exactly the receipts that are in the log and still hold the applied id. */
  ghost function Undone(receipts: map<string, Receipt>, entries: seq<Entry>): map<string, Receipt> {
    map id | id in receipts ::
      if Logged(entries, id) && receipts[id].projectId == Some(EntryFor(entries, id).applied)
      then receipts[id].(projectId := EntryFor(entries, id).previous)
      else receipts[id]
  }

  /** After any edits in between, rollback changes just the logged receipts that still hold the applied id. */
  lemma {:induction false} RollbackExactly(t: Tables, entries: seq<Entry>)
    requires GoodLog(entries)
    ensures RollbackAll(t, entries).tables == t.(receipts := Undone(t.receipts, entries))
  {
    if entries == [] {
      assert Undone(t.receipts, []) == t.receipts;
    } else {
      var front, e := entries[..|entries| - 1], entries[|entries| - 1];
      SplitLast(entries);
      assert forall i :: 0 <= i < |front| ==> front[i] == entries[i];
      RollbackExactly(t, front);
      UndoneOneMore(t.receipts, front, e);
      assert GoodEntry(e);
      hide Undone, GoodLog, Strip, ValidProjectId;
      assert RollbackAll(t, entries) == RollbackOne(RollbackAll(t, front), e);
    }
  }

  /** One more entry changes its own receipt, if that holds the applied id, and no other. */
  lemma UndoneOneMore(receipts: map<string, Receipt>, front: seq<Entry>, e: Entry)
    requires DistinctIds(front + [e])
    ensures var before, after := Undone(receipts, front), Undone(receipts, front + [e]);
            var id := e.receiptId;
            && before.Keys == receipts.Keys
            && (id in receipts ==> before[id] == receipts[id])
            && after == if id in receipts && receipts[id].projectId == Some(e.applied)
                        then before[id := receipts[id].(projectId := e.previous)] else before
  {
    var before, after := Undone(receipts, front), Undone(receipts, front + [e]);
    var id := e.receiptId;
    assert before.Keys == receipts.Keys && after.Keys == receipts.Keys;
    forall x | x in receipts
      ensures x == id ==> before[x] == receipts[x]
      ensures after[x] == if x == id && receipts[x].projectId == Some(e.applied)
                          then receipts[x].(projectId := e.previous) else before[x]
    {
      LoggedOneMore(front, e, x);
      hide Logged, EntryFor, DistinctIds;
    }
    hide Undone, DistinctIds;
  }

  /** Rollback straight after apply gives back the very tables apply started from, whatever they held. */
  lemma {:induction false} RollbackUndoesApply(t: Tables, candidates: seq<Candidate>)
    ensures var a := ApplyAll(t, candidates);
            RollbackAll(a.tables, a.applied).tables == t
  {
    hide ApplyAll, RollbackAll, Strip, ValidProjectId;
    ApplyLeaves(t, candidates);
    var a := ApplyAll(t, candidates);
    RollbackExactly(a.tables, a.applied);
    forall id | id in t.receipts
      ensures Undone(a.tables.receipts, a.applied)[id] == t.receipts[id]
    {
      if Logged(a.applied, id) {
        var i :| 0 <= i < |a.applied| && a.applied[i] == EntryFor(a.applied, id) && a.applied[i].receiptId == id;
        assert TrueEntry(t, a.applied[i]);
      }
    }
    assert Undone(a.tables.receipts, a.applied) == t.receipts;
  }

  /** A second rollback of the same file changes nothing, on any tables. */
  lemma {:induction false} RollbackTwice(t: Tables, entries: seq<Entry>)
    requires GoodLog(entries)
    ensures var once := RollbackAll(t, entries).tables;
            RollbackAll(once, entries).tables == once
  {
    RollbackExactly(t, entries);
    var once := RollbackAll(t, entries).tables;
    RollbackExactly(once, entries);
    forall id | id in once.receipts
      ensures Undone(once.receipts, entries)[id] == once.receipts[id]
    {
      if Logged(entries, id) {
        var i :| 0 <= i < |entries| && entries[i] == EntryFor(entries, id) && entries[i].receiptId == id;
        assert GoodEntry(entries[i]);
      }
    }
    assert Undone(once.receipts, entries) == once.receipts;
  }

  /** The file apply writes meets what the two lemmas above ask of a file. */
  lemma {:induction false} ApplyWritesGoodLog(t: Tables, candidates: seq<Candidate>)
    ensures GoodLog(ApplyAll(t, candidates).applied)
  {
    ApplyLeaves(t, candidates);
    var entries := ApplyAll(t, candidates).applied;
    forall i | 0 <= i < |entries|
      ensures GoodEntry(entries[i])
    {
      assert TrueEntry(t, entries[i]);
    }
  }

  // ----- audit against apply ---------------------------------------------------------------

  /** Every scanned receipt is counted in exactly one class. */
  lemma {:induction false} TotalsPartition(t: Tables, rows: seq<string>)
    requires Scannable(t, rows)
    ensures var n := TotalsOf(t, rows);
            && n.scanned == |rows|
            && n.scanned == n.attributed + n.suggested + n.ambiguous + n.noCandidate
  {
    if rows != [] {
      TotalsPartition(t, rows[..|rows| - 1]);
    }
  }

  /** The audit suggests a project for the receipt, and the receipt's own field holds no valid id. */
  ghost predicate ToApply(t: Tables, id: string)
    requires Photographed(t, id)
  {
    FindingOf(t, id).Suggested? && ValidProjectId(t.receipts[id].projectId).None?
  }

  lemma SuggestionIsValid(t: Tables, r: Receipt)
    requires r.photoId in t.photos && Classify(t, r).Suggested?
    ensures var p := Classify(t, r).projectId;
            ValidProjectId(Some(p)) == Some(p) && ProjectExists(t, r.companyId, Some(p))
  {
    if PhotoProject(t, r).Some? {
      ValidTwice(t.photos[r.photoId]);
    }
    if EmployeeProject(t, r).Some? {
      ValidTwice(t.employees[(r.companyId, r.employeeId.value)]);
    }
  }

  /**
   * The scanned receipt `row` has a suggestion that apply would write into the receipt `id`: the one its stripped id
   * names, which holds no valid id and whose company has the project.
   */
  ghost predicate WritesTo(t: Tables, row: string, id: string)
    requires Photographed(t, row)
  {
    && FindingOf(t, row).Suggested?
    && id == Strip(row) && id != "" && id in t.receipts
    && ValidProjectId(t.receipts[id].projectId).None?
    && ProjectExists(t, t.receipts[id].companyId, Some(FindingOf(t, row).projectId))
  }

  /** The first scanned receipt whose suggestion would be written into `id`. */
  ghost predicate FirstWriter(t: Tables, rows: seq<string>, i: int, id: string)
    requires Scannable(t, rows)
  {
    0 <= i < |rows| && WritesTo(t, rows[i], id) && forall j :: 0 <= j < i ==> !WritesTo(t, rows[j], id)
  }

  /** The entry apply logs when it writes the suggestion for `row` into `id`. */
  ghost function EntryBy(t: Tables, row: string, id: string): Entry
    requires Photographed(t, row) && WritesTo(t, row, id)
  {
    var f := FindingOf(t, row);
    Entry(id, t.receipts[id].companyId, t.receipts[id].projectId, f.projectId, f.rules)
  }

  /** One more scanned receipt adds an entry exactly if it writes into a receipt that is not logged yet. */
  lemma ApplyOneRow(t: Tables, a: Applying, row: string)
    requires AppliedTo(t, a) && Photographed(t, row)
    ensures var id := Strip(row);
            var b := ApplyAllFrom(a, CandidateFor(row, t.receipts[row], FindingOf(t, row)));
            b.applied == if WritesTo(t, row, id) && !Logged(a.applied, id) then a.applied + [EntryBy(t, row, id)] else a.applied
  {
    var f := FindingOf(t, row);
    var id := Strip(row);
    LoggedIsAttributed(t, a, id);
    if f.Suggested? {
      SuggestionIsValid(t, t.receipts[row]);
    }
    hide Classify, Strip, ValidProjectId;
  }

  /** Applying at most one more candidate. */
  ghost function ApplyAllFrom(a: Applying, cs: seq<Candidate>): Applying
    requires |cs| <= 1
  {
    if cs == [] then a else ApplyOne(a, cs[0])
  }

  lemma {:induction false} ApplyAllOneMore(t: Tables, candidates: seq<Candidate>, cs: seq<Candidate>)
    requires |cs| <= 1
    ensures ApplyAll(t, candidates + cs) == ApplyAllFrom(ApplyAll(t, candidates), cs)
  {
    if cs == [] {
      assert candidates + cs == candidates;
    } else {
      assert (candidates + cs)[..|candidates + cs| - 1] == candidates;
    }
  }

  /** Some suggestion is written into the receipt. */
  ghost predicate Written(t: Tables, rows: seq<string>, id: string)
    requires Scannable(t, rows)
  {
    exists i :: 0 <= i < |rows| && WritesTo(t, rows[i], id)
  }

  /** What the log says of the receipt `id`, read off the tables apply started from. */
  ghost predicate LogsExactly(t: Tables, rows: seq<string>, entries: seq<Entry>, id: string)
    requires Scannable(t, rows)
  {
    && (Logged(entries, id) <==> Written(t, rows, id))
    && (forall i :: FirstWriter(t, rows, i, id) ==>
          Logged(entries, id) && EntryFor(entries, id) == EntryBy(t, rows[i], id))
  }

  /**
   * Apply, on any scanned receipts, logs a receipt exactly if some suggestion is written into it, and logs the first
   * such suggestion.
   */
  lemma {:induction false} ApplyLogsExactly(t: Tables, rows: seq<string>, id: string)
    requires Scannable(t, rows)
    ensures LogsExactly(t, rows, ApplyAll(t, CandidatesOf(t, rows)).applied, id)
  {
    if rows != [] {
      var front, row := rows[..|rows| - 1], rows[|rows| - 1];
      assert forall i :: 0 <= i < |front| ==> front[i] == rows[i];
      ApplyLogsExactly(t, front, id);
      hide FindingOf, WritesTo, ApplyAll, CandidateFor, ApplyAllFrom, EntryBy;
      var before := CandidatesOf(t, front);
      var cs := CandidateFor(row, t.receipts[row], FindingOf(t, row));
      ApplyLeaves(t, before);
      ApplyAllOneMore(t, before, cs);
      var a := ApplyAll(t, before);
      ApplyOneRow(t, a, row);
      ApplyLeaves(t, before + cs);
      assert WritesTo(t, row, id) ==> id == Strip(row) by {
        TargetIsStripped(t, row, id);
      }
      LogsOneMore(t, front, row, a.applied, ApplyAll(t, before + cs).applied, id);
      SplitLast(rows);
    }
  }

  lemma TargetIsStripped(t: Tables, row: string, id: string)
    requires Photographed(t, row)
    ensures WritesTo(t, row, id) ==> id == Strip(row)
  {
  }

  lemma WritersOneMore(t: Tables, front: seq<string>, row: string, id: string)
    requires Scannable(t, front) && Photographed(t, row)
    ensures var rows := front + [row];
            && Scannable(t, rows)
            && (Written(t, rows, id) <==> Written(t, front, id) || WritesTo(t, row, id))
            && forall i :: FirstWriter(t, rows, i, id) ==>
                 FirstWriter(t, front, i, id) || (i == |front| && WritesTo(t, row, id) && !Written(t, front, id))
  {
    hide WritesTo;
    var rows := front + [row];
    assert rows[|front|] == row;
    assert forall i :: 0 <= i < |front| ==> rows[i] == front[i];
  }

  lemma LogsOneMore(t: Tables, front: seq<string>, row: string, before: seq<Entry>, after: seq<Entry>, id: string)
    requires Scannable(t, front) && Photographed(t, row) && LogsExactly(t, front, before, id)
    requires DistinctIds(before) && DistinctIds(after)
    requires WritesTo(t, row, id) ==> id == Strip(row)
    requires var target := Strip(row);
             after == if WritesTo(t, row, target) && !Logged(before, target) then before + [EntryBy(t, row, target)] else before
    ensures Scannable(t, front + [row]) && LogsExactly(t, front + [row], after, id)
  {
    WritersOneMore(t, front, row, id);
    var rows, target := front + [row], Strip(row);
    assert WritesTo(t, row, target) ==> EntryBy(t, row, target).receiptId == target;
    assert rows[|front|] == row && forall i :: 0 <= i < |front| ==> rows[i] == front[i];
    assert forall i :: FirstWriter(t, front, i, id) ==> 0 <= i < |front|;
    hide FindingOf, WritesTo, EntryBy, Strip, DistinctIds, Logged, EntryFor, Written, FirstWriter, Photographed;
    if WritesTo(t, row, target) && !Logged(before, target) {
      LoggedOneMore(before, EntryBy(t, row, target), id);
    }
  }

  /** Read on the table: a receipt holds the first suggestion that is written into it, and otherwise what it held before. */
  lemma {:induction false} ApplyChangesExactly(t: Tables, rows: seq<string>, id: string)
    requires Scannable(t, rows) && id in t.receipts
    ensures var after := ApplyAll(t, CandidatesOf(t, rows)).tables.receipts;
            && after.Keys == t.receipts.Keys
            && (forall i :: FirstWriter(t, rows, i, id) ==>
                  after[id] == t.receipts[id].(projectId := Some(FindingOf(t, rows[i]).projectId)))
            && (!Written(t, rows, id) ==> after[id] == t.receipts[id])
  {
    ApplyLogsExactly(t, rows, id);
    ApplyLeaves(t, CandidatesOf(t, rows));
    hide WritesTo, FindingOf, ApplyAll;
  }

  // ----- when apply does what the audit announced ------------------------------------------

  /** Apply logs the receipt exactly if the audit suggested a project for it and its own field holds none, with that project. */
  ghost predicate AsAnnounced(t: Tables, rows: seq<string>, id: string)
    requires Scannable(t, rows)
  {
    var entries := ApplyAll(t, CandidatesOf(t, rows)).applied;
    && (Logged(entries, id) <==> id in rows && Photographed(t, id) && ToApply(t, id))
    && (Logged(entries, id) && Photographed(t, id) && ToApply(t, id) ==>
          EntryFor(entries, id).applied == FindingOf(t, id).projectId)
  }

  ghost predicate Canonical(id: string) {
    id != "" && Strip(id) == id
  }

  /** The receipt is to be applied, but its id is empty or has blanks around it, so it is not found. */
  ghost predicate Missed(t: Tables, row: string)
    requires Photographed(t, row)
  {
    ToApply(t, row) && !Canonical(row)
  }

  /** The suggestion for a scanned receipt is written into another one that was not to be applied, or not with that project. */
  ghost predicate Misdirected(t: Tables, rows: seq<string>, i: int)
    requires Scannable(t, rows) && 0 <= i < |rows|
  {
    var id := Strip(rows[i]);
    && FirstWriter(t, rows, i, id)
    && !(id in rows && Photographed(t, id) && ToApply(t, id) && FindingOf(t, id).projectId == FindingOf(t, rows[i]).projectId)
  }

  /**
   * Apply does what the audit announced, receipt by receipt, if and only if no scanned receipt is missed or misdirected
   * because of blanks around its id.
   */
  lemma ApplyMatchesAudit(t: Tables, rows: seq<string>)
    requires Scannable(t, rows)
    ensures (forall id :: AsAnnounced(t, rows, id))
            <==> forall i :: 0 <= i < |rows| ==> !Missed(t, rows[i]) && !Misdirected(t, rows, i)
  {
    hide FindingOf, ApplyAll, Strip, Logged, EntryFor, ValidProjectId;
    if forall id :: AsAnnounced(t, rows, id) {
      forall i | 0 <= i < |rows|
        ensures !Missed(t, rows[i]) && !Misdirected(t, rows, i)
      {
        assert AsAnnounced(t, rows, rows[i]);
        assert AsAnnounced(t, rows, Strip(rows[i]));
        ApplyLogsExactly(t, rows, rows[i]);
        ApplyLogsExactly(t, rows, Strip(rows[i]));
        if Missed(t, rows[i]) {
          var j :| 0 <= j < |rows| && WritesTo(t, rows[j], rows[i]);
          StripTwice(rows[j]);
        }
      }
    }
    if forall i :: 0 <= i < |rows| ==> !Missed(t, rows[i]) && !Misdirected(t, rows, i) {
      forall id
        ensures AsAnnounced(t, rows, id)
      {
        AnnouncedOne(t, rows, id);
      }
    }
  }

  lemma AnnouncedOne(t: Tables, rows: seq<string>, id: string)
    requires Scannable(t, rows)
    requires forall i :: 0 <= i < |rows| ==> !Missed(t, rows[i]) && !Misdirected(t, rows, i)
    ensures AsAnnounced(t, rows, id)
  {
    ApplyLogsExactly(t, rows, id);
    hide ApplyAll, Strip, Logged, EntryFor, ValidProjectId;
    if Written(t, rows, id) {
      var first := FirstOf(t, rows, id);
      assert !Misdirected(t, rows, first);
    }
    if id in rows && ToApply(t, id) {
      var i :| 0 <= i < |rows| && rows[i] == id;
      assert !Missed(t, rows[i]);
      SuggestionIsValid(t, t.receipts[id]);
      assert WritesTo(t, rows[i], id);
    }
  }

  lemma {:induction false} FirstOf(t: Tables, rows: seq<string>, id: string) returns (first: int)
    requires Scannable(t, rows) && Written(t, rows, id)
    ensures FirstWriter(t, rows, first, id)
    decreases |rows|
  {
    hide WritesTo;
    var i :| 0 <= i < |rows| && WritesTo(t, rows[i], id);
    if j :| 0 <= j < i && WritesTo(t, rows[j], id) {
      var front := rows[..i];
      assert WritesTo(t, front[j], id);
      first := FirstOf(t, front, id);
      assert forall k :: 0 <= k <= first ==> front[k] == rows[k];
    } else {
      first := i;
    }
  }

  /** In particular it does so whenever the ids of the scanned receipts with a suggestion are canonical. */
  lemma CanonicalIdsSuffice(t: Tables, rows: seq<string>, id: string)
    requires Scannable(t, rows)
    requires forall i :: 0 <= i < |rows| && FindingOf(t, rows[i]).Suggested? ==> Canonical(rows[i])
    ensures AsAnnounced(t, rows, id)
  {
    hide ApplyAll, Strip, FindingOf, ValidProjectId;
    AnnouncedOne(t, rows, id);
  }

  /** Two receipts whose ids differ in a blank; the audit suggests a project for the first and has none for the second. */
  const BLANK_TWIN := Tables(
    map[" r" := Receipt("c", None, 1, None, None, 0), "r" := Receipt("c", None, 2, None, None, 0)],
    map[1 := Some("p"), 2 := None],
    map[],
    {("c", "p")})

  lemma BlankTwinFound()
    ensures Strip(" r") == "r" && Strip("r") == "r"
    ensures Scannable(BLANK_TWIN, [" r"]) && Photographed(BLANK_TWIN, "r")
    ensures FindingOf(BLANK_TWIN, " r") == Suggested("p", [PhotoProjectId]) && FindingOf(BLANK_TWIN, "r") == NoCandidate
    ensures ToApply(BLANK_TWIN, " r") && WritesTo(BLANK_TWIN, " r", "r") && !WritesTo(BLANK_TWIN, " r", " r")
  {
    assert " r"[1..] == "r" && Strip(" r") == "r";
    assert Strip("p") == "p";
  }

  /** Scanning only the first, apply misses it and writes its project into the second. */
  lemma BlankTwinWritten()
    ensures Scannable(BLANK_TWIN, [" r"]) && Photographed(BLANK_TWIN, "r")
    ensures FindingOf(BLANK_TWIN, " r").Suggested? && FindingOf(BLANK_TWIN, "r") == NoCandidate
    ensures Missed(BLANK_TWIN, " r") && Misdirected(BLANK_TWIN, [" r"], 0)
    ensures var after := ApplyAll(BLANK_TWIN, CandidatesOf(BLANK_TWIN, [" r"])).tables.receipts;
            && after.Keys == {" r", "r"}
            && after[" r"].projectId == None && after["r"].projectId == Some("p")
  {
    BlankTwinFound();
    hide ApplyAll, Strip, FindingOf, CandidatesOf, WritesTo, ToApply;
    assert FirstWriter(BLANK_TWIN, [" r"], 0, "r");
    ApplyChangesExactly(BLANK_TWIN, [" r"], "r");
    ApplyChangesExactly(BLANK_TWIN, [" r"], " r");
  }

  /** An id with blanks around it is looked up without them, so its own receipt is never changed. */
  lemma {:induction false} UnstrippedNeverApplied(t: Tables, candidates: seq<Candidate>, id: string)
    requires id in t.receipts && (id == "" || Strip(id) != id)
    ensures var after := ApplyAll(t, candidates).tables;
            id in after.receipts && after.receipts[id] == t.receipts[id]
  {
    ApplyLeaves(t, candidates);
    ApplyWritesGoodLog(t, candidates);
  }

  // ----- the audit after apply --------------------------------------------------------------

  /** A receipt apply has changed counts as attributed from then on. */
  lemma {:induction false} ReauditAttributed(t: Tables, candidates: seq<Candidate>, id: string)
    requires Logged(ApplyAll(t, candidates).applied, id)
    requires Photographed(t, id)
    ensures var after := ApplyAll(t, candidates).tables;
            Photographed(after, id) && FindingOf(after, id) == Attributed
  {
    ApplyLeaves(t, candidates);
    var a := ApplyAll(t, candidates);
    var i :| 0 <= i < |a.applied| && a.applied[i] == EntryFor(a.applied, id) && a.applied[i].receiptId == id;
    assert TrueEntry(t, a.applied[i]);
  }

  /** Any other receipt is found as before. */
  lemma {:induction false} ReauditOthers(t: Tables, candidates: seq<Candidate>, id: string)
    requires !Logged(ApplyAll(t, candidates).applied, id)
    requires Photographed(t, id)
    ensures var after := ApplyAll(t, candidates).tables;
            Photographed(after, id) && FindingOf(after, id) == FindingOf(t, id)
  {
    ApplyLeaves(t, candidates);
  }

  /** Which receipts the query returns does not depend on their projects, so apply does not change the scan. */
  lemma {:induction false} ScanUnaffected(t: Tables, candidates: seq<Candidate>, q: Query, rows: seq<string>)
    requires IsScan(t, q, rows)
    ensures IsScan(ApplyAll(t, candidates).tables, q, rows)
  {
    ApplyLeaves(t, candidates);
    var after := ApplyAll(t, candidates).tables;
    forall id: string
      ensures Eligible(after, q, id) <==> Eligible(t, q, id)
      ensures id in t.receipts ==> id in after.receipts && ObservedAt(after.receipts[id]) == ObservedAt(t.receipts[id])
    {
    }
  }

  /** The rows that are logged. */
  ghost function LoggedRows(entries: seq<Entry>, rows: seq<string>): seq<string> {
    if rows == [] then []
    else
      var row := rows[|rows| - 1];
      LoggedRows(entries, rows[..|rows| - 1]) + if Logged(entries, row) then [row] else []
  }

  /** What a repeated audit of the same rows finds, when those counted in `moved` have been attributed in between. */
  ghost predicate Moved(before: Totals, after: Totals, moved: Totals) {
    && after.scanned == before.scanned
    && moved.attributed == 0
    && after.attributed == before.attributed + moved.scanned
    && after.suggested == before.suggested - moved.suggested
    && after.ambiguous == before.ambiguous - moved.ambiguous
    && after.noCandidate == before.noCandidate - moved.noCandidate
  }

  lemma {:induction false} TotalsOneMore(t: Tables, rows: seq<string>, row: string)
    requires Scannable(t, rows) && Photographed(t, row)
    ensures Scannable(t, rows + [row]) && TotalsOf(t, rows + [row]) == Plus(TotalsOf(t, rows), FindingOf(t, row))
  {
    assert (rows + [row])[..|rows|] == rows;
  }

  lemma MovedOneMore(t: Tables, u: Tables, rows: seq<string>, row: string, moved: seq<string>, logged: bool)
    requires Scannable(t, rows) && Scannable(u, rows) && Scannable(t, moved)
    requires Photographed(t, row) && Photographed(u, row)
    requires Moved(TotalsOf(t, rows), TotalsOf(u, rows), TotalsOf(t, moved))
    requires if logged then FindingOf(u, row) == Attributed != FindingOf(t, row) else FindingOf(u, row) == FindingOf(t, row)
    ensures var all, more := rows + [row], moved + if logged then [row] else [];
            && Scannable(t, all) && Scannable(u, all) && Scannable(t, more)
            && Moved(TotalsOf(t, all), TotalsOf(u, all), TotalsOf(t, more))
  {
    TotalsOneMore(t, rows, row);
    TotalsOneMore(u, rows, row);
    TotalsOneMore(t, moved, row);
    PlusMoved(TotalsOf(t, rows), TotalsOf(u, rows), TotalsOf(t, moved), FindingOf(t, row), FindingOf(u, row), logged);
    hide TotalsOf, FindingOf, Scannable, Photographed, Moved, Plus;
    if !logged {
      assert moved + [] == moved;
    }
  }

  lemma PlusMoved(before: Totals, after: Totals, moved: Totals, f: Finding, g: Finding, logged: bool)
    requires Moved(before, after, moved) && if logged then g == Attributed != f else g == f
    ensures Moved(Plus(before, f), Plus(after, g), if logged then Plus(moved, f) else moved)
  {
  }

  /** Auditing the same rows again, after any apply, moves exactly the logged ones to attributed. */
  lemma {:induction false} ReauditAfterApply(t: Tables, candidates: seq<Candidate>, rows: seq<string>)
    requires Scannable(t, rows)
    ensures var a := ApplyAll(t, candidates);
            var moved := LoggedRows(a.applied, rows);
            && Scannable(a.tables, rows) && Scannable(t, moved)
            && Moved(TotalsOf(t, rows), TotalsOf(a.tables, rows), TotalsOf(t, moved))
  {
    if rows != [] {
      var front, id := rows[..|rows| - 1], rows[|rows| - 1];
      hide FindingOf, ApplyAll, Logged, TotalsOf, Moved;
      SplitLast(rows);
      ReauditAfterApply(t, candidates, front);
      var a := ApplyAll(t, candidates);
      if Logged(a.applied, id) {
        ReauditAttributed(t, candidates, id);
        NotAttributedBefore(t, candidates, id);
      } else {
        ReauditOthers(t, candidates, id);
      }
      MovedOneMore(t, a.tables, front, id, LoggedRows(a.applied, front), Logged(a.applied, id));
    }
  }

  lemma {:induction false} NotAttributedBefore(t: Tables, candidates: seq<Candidate>, id: string)
    requires Photographed(t, id) && Logged(ApplyAll(t, candidates).applied, id)
    ensures FindingOf(t, id) != Attributed
  {
    ApplyLeaves(t, candidates);
    hide ApplyAll;
    var entries := ApplyAll(t, candidates).applied;
    var i :| 0 <= i < |entries| && entries[i].receiptId == id;
    assert TrueEntry(t, entries[i]);
  }

  /** They come from the suggested ones alone if and only if every logged row had a suggestion of its own. */
  lemma {:induction false} MovedFromSuggestedExactly(t: Tables, moved: seq<string>)
    requires Scannable(t, moved)
    ensures TotalsOf(t, moved).suggested <= TotalsOf(t, moved).scanned
    ensures TotalsOf(t, moved).suggested == TotalsOf(t, moved).scanned
            <==> forall i :: 0 <= i < |moved| ==> FindingOf(t, moved[i]).Suggested?
  {
    hide FindingOf;
    if moved != [] {
      var front := moved[..|moved| - 1];
      MovedFromSuggestedExactly(t, front);
      assert forall i :: 0 <= i < |front| ==> front[i] == moved[i];
    }
  }
}
