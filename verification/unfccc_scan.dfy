/** The first pass of UNFCCC/main.py (`_read_existing_data`): check every
    row, collect the slugs and document IDs already assigned, and keep the
    family ID and slug of the first row of each family name. */
module UnfcccScan {
  import opened Wrappers
  import opened Strings
  import opened Table
  import CclwScan

  /** `REQUIRED_COLUMNS` of UNFCCC/main.py. */
  const UnfcccColumns: seq<string> := [
    "Category", "Submission Type", "Family Name", "Document Title", "Documents",
    "Author", "Author Type", "Geography", "Geography ISO", "Date",
    "Document Role", "Document Variant", "Language", "CPR Collection ID", "CPR Document ID"]

  /** `{"CPR Family ID": id or None, "CPR Family Slug": slug or None}`. */
  datatype FamilyRecord = FamilyRecord(id: Option<string>, slug: Option<string>)

  /** Python's `s or None`. */
  function Opt(s: string): (o: Option<string>)
    ensures o.None? <==> s == ""
    ensures o.Some? ==> o.value == s
  {
    if s != "" then Some(s) else None
  }

  /** What the pass reads from a row: stripped cells, and whether the
      document slug cell holds anything before stripping. */
  datatype Line = Line(
    category: string, title: string, familyName: string, docId: string,
    docSlugSet: bool, docSlug: string, familyId: string, familySlug: string)

  function Read(row: Row): (l: Line)
    ensures l.docSlug != "" ==> l.docSlugSet
  {
    StripEmptyIff("");
    Line(
      Cell(row, "Category"), Cell(row, "Document Title"), Cell(row, "Family Name"), Cell(row, CprDocumentId),
      Field(row, CprDocumentSlug) != "", Cell(row, CprDocumentSlug), Cell(row, CprFamilyId), Cell(row, CprFamilySlug))
  }

  function Lines(rows: seq<Row>): (ls: seq<Line>)
    ensures |ls| == |rows|
    ensures forall i :: 0 <= i < |rows| ==> ls[i] == Read(rows[i])
  {
    seq(|rows|, i requires 0 <= i < |rows| => Read(rows[i]))
  }

  /** `len(vals) == 4 and vals[-1] == "0"` for `vals = id.split(".")`. */
  predicate WellFormedId(id: string) {
    var vals := Split(id, '.');
    |vals| == 4 && vals[3] == "0"
  }

  /** The lookups the pass builds: `existing_slugs`, `existing_doc_info`
      and `existing_family_info`. */
  datatype Known = Known(slugs: set<string>, docInfo: map<string, string>, families: map<string, FamilyRecord>)

  /** The slugs a row claims: its document and family slugs, if any. */
  function LineSlugs(l: Line): set<string> {
    (if l.docSlug != "" then {l.docSlug} else {}) + (if l.familySlug != "" then {l.familySlug} else {})
  }

  /** What one row adds to the lookups: its slugs, its document ID unless
      already known, and its family's record unless the name is known. */
  function Learn(k: Known, l: Line): Known {
    Known(
      k.slugs + LineSlugs(l),
      if l.docId != "" && l.docId !in k.docInfo then k.docInfo[l.docId := l.docSlug] else k.docInfo,
      if l.familyName !in k.families then k.families[l.familyName := FamilyRecord(Opt(l.familyId), Opt(l.familySlug))] else k.families)
  }

  /** The lookups after the rows `ls`. */
  function KnownAfter(ls: seq<Line>): Known {
    if |ls| == 0 then Known({}, map[], map[])
    else Learn(KnownAfter(ls[..|ls| - 1]), ls[|ls| - 1])
  }

  /** Whether a row fails the check of `kind`, given what the rows before
      it left in the lookups. */
  predicate Fails(k: Known, l: Line, kind: ErrorKind) {
    match kind
    case NoCategory => l.category == ""
    case MalformedDocumentId => l.docId != "" && !WellFormedId(l.docId)
    case NoTitle => l.title == ""
    case EmptyFamilyName => l.familyName == ""
    case DuplicateDocumentSlug => l.docSlugSet && l.docSlug in k.slugs
    case DuplicateDocumentId => l.docId != "" && l.docId in k.docInfo
    case ConflictingFamilyId =>
      l.familyId != "" && l.familyName in k.families && k.families[l.familyName].id != Some(l.familyId)
    case ConflictingFamilySlug =>
      l.familyId != "" && l.familyName in k.families && l.familySlug != "" && k.families[l.familyName].slug != Some(l.familySlug)
    case _ => false
  }

  /** The checks the pass runs on every row, in the script's order. */
  const Checks: seq<ErrorKind> := [
    NoCategory, MalformedDocumentId, NoTitle, EmptyFamilyName,
    DuplicateDocumentSlug, DuplicateDocumentId, ConflictingFamilyId, ConflictingFamilySlug]

  /** The checks `kinds` run on row number `n`: one diagnostic per
      failed check, naming that row. */
  function Flags(k: Known, l: Line, n: nat, kinds: seq<ErrorKind>): (errs: seq<RowError>)
    ensures CclwScan.RowsWithin(errs, n, n)
    ensures forall x :: x in errs <==> x.row == n && x.kind in kinds && Fails(k, l, x.kind)
  {
    if |kinds| == 0 then []
    else CclwScan.FlagIf(Fails(k, l, kinds[0]), n, kinds[0]) + Flags(k, l, n, kinds[1..])
  }

  /** The diagnostics of row number `n`. */
  function Diagnostics(k: Known, l: Line, n: nat): (errs: seq<RowError>)
    ensures CclwScan.RowsWithin(errs, n, n)
  {
    Flags(k, l, n, Checks)
  }

  /** The diagnostics of the pass, numbering rows from 1. */
  function Errors(ls: seq<Line>): seq<RowError> {
    if |ls| == 0 then []
    else
      var prefix := ls[..|ls| - 1];
      Errors(prefix) + Diagnostics(KnownAfter(prefix), ls[|ls| - 1], |ls|)
  }

  /** `_read_existing_data`: the schema gate, then the pass; any diagnostic
      ends the run with status 10. */
  function ReadExistingData(sheet: Sheet): (r: Result<Known, Failure>)
    ensures r.Failure? && r.error.SchemaError? <==> !HasColumns(UnfcccColumns, sheet.header)
    ensures r.Failure? && r.error.SchemaError? ==> r.error.missing == MissingColumns(UnfcccColumns, sheet.header)
    ensures r.Failure? ==> r.error.SchemaError? || (r.error.RowErrors? && r.error.errors == Errors(Lines(sheet.rows)) != [])
    ensures r.Success? ==> r.value == KnownAfter(Lines(sheet.rows)) && Errors(Lines(sheet.rows)) == []
  {
    if !HasColumns(UnfcccColumns, sheet.header) then Failure(SchemaError(MissingColumns(UnfcccColumns, sheet.header)))
    else
      var ls := Lines(sheet.rows);
      if Errors(ls) != [] then Failure(RowErrors(Errors(ls))) else Success(KnownAfter(ls))
  }


  // ---------------------------------------------------------------------
  // The diagnostics

  /** Every diagnostic names one of the rows read so far. */
  lemma {:induction false} ErrorsWithin(ls: seq<Line>)
    ensures CclwScan.RowsWithin(Errors(ls), 1, |ls|)
    decreases |ls|
  {
    if |ls| > 0 {
      var prefix := ls[..|ls| - 1];
      ErrorsWithin(prefix);
      CclwScan.WithinConcat(Errors(prefix), Diagnostics(KnownAfter(prefix), ls[|ls| - 1], |ls|), 1, |ls|);
    }
  }

  /** A diagnostic naming row `i + 1` is raised by that row's checks, run
      on the lookups the rows before it left. */
  lemma {:induction false} FlaggedAt(ls: seq<Line>, i: nat, x: RowError)
    requires i < |ls| && x.row == i + 1
    ensures x in Errors(ls) <==> x in Diagnostics(KnownAfter(ls[..i]), ls[i], i + 1)
    decreases |ls|
  {
    var prefix := ls[..|ls| - 1];
    var added := Diagnostics(KnownAfter(prefix), ls[|ls| - 1], |ls|);
    CclwScan.InJoin(Errors(prefix), added, x);
    if i == |ls| - 1 {
      ErrorsWithin(prefix);
      CclwScan.NotWithin(Errors(prefix), 1, |ls| - 1, x);
    } else {
      assert prefix[..i] == ls[..i] && prefix[i] == ls[i];
      FlaggedAt(prefix, i, x);
      CclwScan.NotWithin(added, |ls|, |ls|, x);
    }
  }

  /** Row `i` (0-based) is diagnosed with `kind` exactly when it fails that
      check against the lookups the rows before it left. */
  lemma RowFlagged(ls: seq<Line>, i: nat, kind: ErrorKind)
    requires i < |ls| && kind in Checks
    ensures RowError(i + 1, kind) in Errors(ls) <==> Fails(KnownAfter(ls[..i]), ls[i], kind)
  {
    FlaggedAt(ls, i, RowError(i + 1, kind));
  }

  /** `RowFlagged` with the failure condition already worked out. */
  lemma RowFlaggedAs(ls: seq<Line>, i: nat, kind: ErrorKind, holds: bool)
    requires i < |ls| && kind in Checks
    requires Fails(KnownAfter(ls[..i]), ls[i], kind) <==> holds
    ensures RowError(i + 1, kind) in Errors(ls) <==> holds
  {
    RowFlagged(ls, i, kind);
  }

  /** A clean pass has clean prefixes: diagnostics only accumulate. */
  lemma {:induction false} CleanPrefix(ls: seq<Line>, k: nat)
    requires k <= |ls| && Errors(ls) == []
    ensures Errors(ls[..k]) == []
    decreases |ls|
  {
    if k < |ls| {
      var prefix := ls[..|ls| - 1];
      assert prefix[..k] == ls[..k];
      CleanPrefix(prefix, k);
    } else {
      assert ls[..k] == ls;
    }
  }

  /** The blank-field and ID-format checks look at the row alone. */
  lemma FieldsFlagged(ls: seq<Line>, i: nat)
    requires i < |ls|
    ensures RowError(i + 1, NoCategory) in Errors(ls) <==> ls[i].category == ""
    ensures RowError(i + 1, NoTitle) in Errors(ls) <==> ls[i].title == ""
    ensures RowError(i + 1, EmptyFamilyName) in Errors(ls) <==> ls[i].familyName == ""
    ensures RowError(i + 1, MalformedDocumentId) in Errors(ls) <==> ls[i].docId != "" && !WellFormedId(ls[i].docId)
  {
    CategoryFlagged(ls, i);
    TitleFlagged(ls, i);
    NameFlagged(ls, i);
    IdFormatFlagged(ls, i);
  }

  lemma CategoryFlagged(ls: seq<Line>, i: nat)
    requires i < |ls|
    ensures RowError(i + 1, NoCategory) in Errors(ls) <==> ls[i].category == ""
  {
    RowFlaggedAs(ls, i, NoCategory, ls[i].category == "");
  }

  lemma TitleFlagged(ls: seq<Line>, i: nat)
    requires i < |ls|
    ensures RowError(i + 1, NoTitle) in Errors(ls) <==> ls[i].title == ""
  {
    RowFlaggedAs(ls, i, NoTitle, ls[i].title == "");
  }

  lemma NameFlagged(ls: seq<Line>, i: nat)
    requires i < |ls|
    ensures RowError(i + 1, EmptyFamilyName) in Errors(ls) <==> ls[i].familyName == ""
  {
    RowFlaggedAs(ls, i, EmptyFamilyName, ls[i].familyName == "");
  }

  lemma IdFormatFlagged(ls: seq<Line>, i: nat)
    requires i < |ls|
    ensures RowError(i + 1, MalformedDocumentId) in Errors(ls) <==> ls[i].docId != "" && !WellFormedId(ls[i].docId)
  {
    RowFlaggedAs(ls, i, MalformedDocumentId, ls[i].docId != "" && !WellFormedId(ls[i].docId));
  }

  // ---------------------------------------------------------------------
  // What the lookups hold

  /** The slug set holds exactly the slugs the rows claim. */
  lemma {:induction false} KnownSlugs(ls: seq<Line>, s: string)
    ensures s in KnownAfter(ls).slugs <==> exists m :: 0 <= m < |ls| && s in LineSlugs(ls[m])
    decreases |ls|
  {
    if |ls| > 0 {
      var prefix := ls[..|ls| - 1];
      KnownSlugs(prefix, s);
      assert forall m :: 0 <= m < |prefix| ==> prefix[m] == ls[m];
      if s in LineSlugs(ls[|ls| - 1]) {
        assert s in KnownAfter(ls).slugs;
      }
    }
  }

  /** The document IDs known are exactly the rows' non-empty ones. */
  lemma {:induction false} KnownDocIds(ls: seq<Line>, id: string)
    ensures id in KnownAfter(ls).docInfo <==> id != "" && exists m :: 0 <= m < |ls| && ls[m].docId == id
    decreases |ls|
  {
    if |ls| > 0 {
      var prefix := ls[..|ls| - 1];
      KnownDocIds(prefix, id);
      assert forall m :: 0 <= m < |prefix| ==> prefix[m] == ls[m];
    }
  }

  /** Row `m` is the first row of its family name. */
  predicate FirstNamed(ls: seq<Line>, m: nat) {
    m < |ls| && forall j :: 0 <= j < m ==> ls[j].familyName != ls[m].familyName
  }

  /** The family record of a row: its ID and slug, if any. */
  function RecordOf(l: Line): FamilyRecord {
    FamilyRecord(Opt(l.familyId), Opt(l.familySlug))
  }

  /** Every family name read has a record. */
  lemma {:induction false} KnownNames(ls: seq<Line>, m: nat)
    requires m < |ls|
    ensures ls[m].familyName in KnownAfter(ls).families
    decreases |ls|
  {
    var prefix := ls[..|ls| - 1];
    if m < |ls| - 1 {
      assert prefix[m] == ls[m];
      KnownNames(prefix, m);
    }
  }

  /** A name no row carries has no record. */
  lemma {:induction false} UnknownName(ls: seq<Line>, name: string)
    requires forall m :: 0 <= m < |ls| ==> ls[m].familyName != name
    ensures name !in KnownAfter(ls).families
    decreases |ls|
  {
    if |ls| > 0 {
      var prefix := ls[..|ls| - 1];
      assert forall m :: 0 <= m < |prefix| ==> prefix[m] == ls[m];
      UnknownName(prefix, name);
    }
  }

  /** A family's record is that of its first row. */
  lemma {:induction false} KnownFamily(ls: seq<Line>, m: nat)
    requires FirstNamed(ls, m)
    ensures ls[m].familyName in KnownAfter(ls).families
    ensures KnownAfter(ls).families[ls[m].familyName] == RecordOf(ls[m])
    decreases |ls|
  {
    KnownNames(ls, m);
    var prefix := ls[..|ls| - 1];
    if m < |ls| - 1 {
      assert prefix[m] == ls[m];
      assert forall j :: 0 <= j < m ==> prefix[j] == ls[j];
      KnownFamily(prefix, m);
    } else {
      assert forall j :: 0 <= j < |prefix| ==> prefix[j] == ls[j];
      UnknownName(prefix, ls[m].familyName);
    }
  }


  // ---------------------------------------------------------------------
  // The lookup checks, in terms of the rows

  /** A row before `i` claims the slug `s`. */
  predicate ClaimedBefore(ls: seq<Line>, i: nat, s: string)
    requires i <= |ls|
  {
    exists m :: 0 <= m < i && s in LineSlugs(ls[m])
  }

  /** A row before `i` has the document ID `id`. */
  predicate IdBefore(ls: seq<Line>, i: nat, id: string)
    requires i <= |ls|
  {
    exists m :: 0 <= m < i && ls[m].docId == id
  }

  /** A document slug is flagged exactly when an earlier row claimed it,
      as its document or its family slug. */
  lemma DocSlugFlagged(ls: seq<Line>, i: nat)
    requires i < |ls|
    ensures RowError(i + 1, DuplicateDocumentSlug) in Errors(ls)
      <==> ls[i].docSlugSet && ClaimedBefore(ls, i, ls[i].docSlug)
  {
    DocSlugFails(ls, i);
    RowFlaggedAs(ls, i, DuplicateDocumentSlug, ls[i].docSlugSet && ClaimedBefore(ls, i, ls[i].docSlug));
  }

  lemma DocSlugFails(ls: seq<Line>, i: nat)
    requires i < |ls|
    ensures Fails(KnownAfter(ls[..i]), ls[i], DuplicateDocumentSlug)
      <==> ls[i].docSlugSet && ClaimedBefore(ls, i, ls[i].docSlug)
  {
    EarlierSlug(ls, i, ls[i].docSlug);
  }

  /** The slugs known before row `i` are those the rows before it claim. */
  lemma EarlierSlug(ls: seq<Line>, i: nat, s: string)
    requires i <= |ls|
    ensures s in KnownAfter(ls[..i]).slugs <==> ClaimedBefore(ls, i, s)
  {
    var prefix := ls[..i];
    KnownSlugs(prefix, s);
    assert forall m :: 0 <= m < i ==> prefix[m] == ls[m];
  }

  /** A document ID is flagged exactly when an earlier row has it. */
  lemma DocIdFlagged(ls: seq<Line>, i: nat)
    requires i < |ls|
    ensures RowError(i + 1, DuplicateDocumentId) in Errors(ls)
      <==> ls[i].docId != "" && IdBefore(ls, i, ls[i].docId)
  {
    DocIdFails(ls, i);
    RowFlaggedAs(ls, i, DuplicateDocumentId, ls[i].docId != "" && IdBefore(ls, i, ls[i].docId));
  }

  lemma DocIdFails(ls: seq<Line>, i: nat)
    requires i < |ls|
    ensures Fails(KnownAfter(ls[..i]), ls[i], DuplicateDocumentId)
      <==> ls[i].docId != "" && IdBefore(ls, i, ls[i].docId)
  {
    EarlierDocId(ls, i, ls[i].docId);
  }

  /** The document IDs known before row `i` are those of the rows before it. */
  lemma EarlierDocId(ls: seq<Line>, i: nat, id: string)
    requires i <= |ls|
    ensures id in KnownAfter(ls[..i]).docInfo <==> id != "" && IdBefore(ls, i, id)
  {
    var prefix := ls[..i];
    KnownDocIds(prefix, id);
    assert forall m :: 0 <= m < i ==> prefix[m] == ls[m];
  }

  /** A later row of a family that gives a family ID must give the first
      row's ID, and a family slug it gives must be the first row's slug. */
  lemma FamilyFlagged(ls: seq<Line>, i: nat, m: nat)
    requires i < |ls| && FirstNamed(ls, m) && m < i && ls[m].familyName == ls[i].familyName
    ensures RowError(i + 1, ConflictingFamilyId) in Errors(ls)
      <==> ls[i].familyId != "" && ls[m].familyId != ls[i].familyId
    ensures RowError(i + 1, ConflictingFamilySlug) in Errors(ls)
      <==> ls[i].familyId != "" && ls[i].familySlug != "" && ls[m].familySlug != ls[i].familySlug
  {
    FamilyIdFlagged(ls, i, m);
    FamilySlugFlagged(ls, i, m);
  }

  lemma FamilyIdFlagged(ls: seq<Line>, i: nat, m: nat)
    requires i < |ls| && FirstNamed(ls, m) && m < i && ls[m].familyName == ls[i].familyName
    ensures RowError(i + 1, ConflictingFamilyId) in Errors(ls)
      <==> ls[i].familyId != "" && ls[m].familyId != ls[i].familyId
  {
    FamilyFails(ls, i, m);
    RowFlaggedAs(ls, i, ConflictingFamilyId, ls[i].familyId != "" && ls[m].familyId != ls[i].familyId);
  }

  lemma FamilySlugFlagged(ls: seq<Line>, i: nat, m: nat)
    requires i < |ls| && FirstNamed(ls, m) && m < i && ls[m].familyName == ls[i].familyName
    ensures RowError(i + 1, ConflictingFamilySlug) in Errors(ls)
      <==> ls[i].familyId != "" && ls[i].familySlug != "" && ls[m].familySlug != ls[i].familySlug
  {
    FamilyFails(ls, i, m);
    RowFlaggedAs(ls, i, ConflictingFamilySlug,
      ls[i].familyId != "" && ls[i].familySlug != "" && ls[m].familySlug != ls[i].familySlug);
  }

  /** The family checks of a later row compare it with the first row. */
  lemma FamilyFails(ls: seq<Line>, i: nat, m: nat)
    requires i < |ls| && FirstNamed(ls, m) && m < i && ls[m].familyName == ls[i].familyName
    ensures Fails(KnownAfter(ls[..i]), ls[i], ConflictingFamilyId)
      <==> ls[i].familyId != "" && ls[m].familyId != ls[i].familyId
    ensures Fails(KnownAfter(ls[..i]), ls[i], ConflictingFamilySlug)
      <==> ls[i].familyId != "" && ls[i].familySlug != "" && ls[m].familySlug != ls[i].familySlug
  {
    EarlierFamily(ls, i, m);
    RecordFails(KnownAfter(ls[..i]), ls[i], RecordOf(ls[m]));
  }

  /** The family checks against a known record. */
  lemma RecordFails(k: Known, l: Line, rec: FamilyRecord)
    requires l.familyName in k.families && k.families[l.familyName] == rec
    ensures Fails(k, l, ConflictingFamilyId) <==> l.familyId != "" && rec.id != Some(l.familyId)
    ensures Fails(k, l, ConflictingFamilySlug) <==> l.familyId != "" && l.familySlug != "" && rec.slug != Some(l.familySlug)
  {
  }

  /** Before a later row, a family's record is that of its first row. */
  lemma EarlierFamily(ls: seq<Line>, i: nat, m: nat)
    requires i <= |ls| && FirstNamed(ls, m) && m < i
    ensures ls[m].familyName in KnownAfter(ls[..i]).families
    ensures KnownAfter(ls[..i]).families[ls[m].familyName] == RecordOf(ls[m])
  {
    var prefix := ls[..i];
    assert prefix[m] == ls[m];
    assert forall j :: 0 <= j < m ==> prefix[j] == ls[j];
    KnownFamily(prefix, m);
  }

  /** The first row of a family is never in conflict with it. */
  lemma FirstRowUnflagged(ls: seq<Line>, i: nat)
    requires FirstNamed(ls, i)
    ensures RowError(i + 1, ConflictingFamilyId) !in Errors(ls)
    ensures RowError(i + 1, ConflictingFamilySlug) !in Errors(ls)
  {
    EarlierUnknown(ls, i);
    RowFlaggedAs(ls, i, ConflictingFamilyId, false);
    RowFlaggedAs(ls, i, ConflictingFamilySlug, false);
  }

  /** Before the first row of a family, its name has no record. */
  lemma EarlierUnknown(ls: seq<Line>, i: nat)
    requires FirstNamed(ls, i)
    ensures ls[i].familyName !in KnownAfter(ls[..i]).families
  {
    var prefix := ls[..i];
    assert forall j :: 0 <= j < i ==> prefix[j] == ls[j];
    UnknownName(prefix, ls[i].familyName);
  }

  // ---------------------------------------------------------------------
  // A sheet the pass accepts

  /** Two rows of an accepted sheet never give the same document slug. */
  lemma CleanDocSlugsDiffer(rows: seq<Row>, a: nat, b: nat)
    requires Errors(Lines(rows)) == []
    requires a < b < |rows| && Read(rows[a]).docSlug != "" && Read(rows[b]).docSlug != ""
    ensures Read(rows[a]).docSlug != Read(rows[b]).docSlug
  {
    var ls := Lines(rows);
    DocSlugFlagged(ls, b);
    assert ls[a].docSlug in LineSlugs(ls[a]);
  }

  /** Every slug a row of the sheet gives is in the slug set. */
  lemma SlugKnown(ls: seq<Line>, m: nat, s: string)
    requires m < |ls| && s in LineSlugs(ls[m])
    ensures s in KnownAfter(ls).slugs
  {
    KnownSlugs(ls, s);
  }
}
