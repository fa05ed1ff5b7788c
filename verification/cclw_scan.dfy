/** The first pass of the CCLW scripts (`_read_existing_data` in main.py,
    `_read_existing_dfc_data` in main_events.py): check every row, collect
    the slugs, document IDs and families the input already carries, and
    exit with status 10 after the whole file if any row was flagged. */
module CclwScan {
  import opened Wrappers
  import opened Strings
  import opened Table

  /** `REQUIRED_COLUMNS` of main.py. */
  const DfcColumns: seq<string> := [
    "ID", "Document ID", "Collection name", "Collection summary", "Document title",
    "Family name", "Family summary", "Document role", "Document variant", "Geography ISO",
    "Documents", "Category", "Sectors", "Instruments", "Frameworks", "Responses",
    "Natural Hazards", "Document Type", "Language", "Keywords", "Geography"]

  /** `REQUIRED_DFC_COLUMNS` of main_events.py. */
  const EventsDfcColumns: seq<string> := [
    "ID", "Document ID", "CCLW Description", "Part of collection?", "Create new family/ies?",
    "Collection ID", "Collection name", "Collection summary", "Document title", "Family name",
    "Family summary", "Family ID", "Document role", "Applies to ID", "Geography ISO",
    "Documents", "Category", "Events", "Sectors", "Instruments", "Frameworks", "Responses",
    "Natural Hazards", "Document Type", "Year", "Language", "Keywords", "Geography",
    "Parent Legislation", "Comment"]

  /** Which slug the first row of a family registers next to its family
      slug check: main.py registers the family slug; main_events.py, at
      line 153, registers the document slug instead. */
  datatype Registration = FamilySlugRegistered | DocSlugRegistered

  /** `existing_family_info[id]`: the name and slug of the family's first
      row and the document IDs of its rows (only main_events.py keeps the
      list). */
  datatype FamilyInfo = FamilyInfo(name: string, slug: string, docIds: seq<string>)

  /** Everything the pass accumulates. `actions` is main_events.py's
      `action_id_to_family_id`; main.py does not keep it, and nothing else
      in the pass depends on it. */
  datatype ScanState = ScanState(
    slugs: set<string>,
    docInfo: map<string, string>,
    families: map<string, FamilyInfo>,
    actions: map<string, set<string>>,
    errors: seq<RowError>)

  const Start := ScanState({}, map[], map[], map[], [])

  /** What the scanner reads from a row. Checked fields are stripped; a CPR
      column counts as supplied when its raw text is non-empty (the
      `if value := row.get(key, "")` tests) and then holds the stripped
      text; `actionKey` is the raw `row.get("ID", "")`. */
  datatype Line = Line(
    category: string, action: string, title: string, familyName: string,
    docSlug: Option<string>, docId: Option<string>,
    familyId: Option<string>, familySlug: Option<string>,
    actionKey: string)

  /** `if value := row.get(key, ""): value = value.strip()`. */
  function Supplied(row: Row, key: string): (o: Option<string>)
    ensures o.None? <==> Field(row, key) == ""
    ensures o.Some? ==> o.value == Cell(row, key)
  {
    if Field(row, key) != "" then Some(Cell(row, key)) else None
  }

  /** The value the script holds for a CPR column: the stripped text, or
      the empty string when the cell was empty. */
  function Text(o: Option<string>): string {
    if o.Some? then o.value else ""
  }

  function Read(row: Row): Line {
    Line(
      Cell(row, "Category"), Cell(row, "ID"), Cell(row, "Document title"), Cell(row, "Family name"),
      Supplied(row, CprDocumentSlug), Supplied(row, CprDocumentId),
      Supplied(row, CprFamilyId), Supplied(row, CprFamilySlug),
      Field(row, "ID"))
  }

  /** A one-diagnostic check: `[RowError(n, kind)]` when `failed`. */
  function FlagIf(failed: bool, n: nat, kind: ErrorKind): (errs: seq<RowError>)
    ensures failed ==> errs == [RowError(n, kind)]
    ensures !failed ==> errs == []
  {
    if failed then [RowError(n, kind)] else []
  }

  /** The kinds of the blank-field checks. */
  predicate IsFieldError(kind: ErrorKind) {
    kind == NoCategory || kind == NoActionId || kind == NoTitle || kind == EmptyFamilyName
  }

  /** Every diagnostic in `errs` names a row in `lo..hi`. */
  predicate RowsWithin(errs: seq<RowError>, lo: int, hi: int) {
    forall j :: 0 <= j < |errs| ==> lo <= errs[j].row <= hi
  }

  /** Numbered diagnostics stay numbered when joined. */
  lemma WithinConcat(a: seq<RowError>, b: seq<RowError>, lo: int, hi: int)
    requires RowsWithin(a, lo, hi) && RowsWithin(b, lo, hi)
    ensures RowsWithin(a + b, lo, hi)
  {
    forall j | 0 <= j < |a + b| ensures lo <= (a + b)[j].row <= hi {
      if j >= |a| {
        assert (a + b)[j] == b[j - |a|];
      }
    }
  }

  /** The four blank-field checks of row number `n`, in the script's order. */
  function FieldErrors(l: Line, n: nat): (errs: seq<RowError>)
    ensures RowsWithin(errs, n, n)
    ensures forall i :: 0 <= i < |errs| ==> IsFieldError(errs[i].kind)
    ensures RowError(n, NoCategory) in errs <==> l.category == ""
    ensures RowError(n, NoActionId) in errs <==> l.action == ""
    ensures RowError(n, NoTitle) in errs <==> l.title == ""
    ensures RowError(n, EmptyFamilyName) in errs <==> l.familyName == ""
  {
    FieldFlagsShape(l, n);
    FieldFlagsFound(l, n);
    FieldFlags(l, n)
  }

  function FieldFlags(l: Line, n: nat): seq<RowError> {
    FlagIf(l.category == "", n, NoCategory) + FlagIf(l.action == "", n, NoActionId)
    + FlagIf(l.title == "", n, NoTitle) + FlagIf(l.familyName == "", n, EmptyFamilyName)
  }

  /** The blank-field diagnostics name row `n` and are of blank-field kinds. */
  lemma FieldFlagsShape(l: Line, n: nat)
    ensures RowsWithin(FieldFlags(l, n), n, n)
    ensures forall i :: 0 <= i < |FieldFlags(l, n)| ==> IsFieldError(FieldFlags(l, n)[i].kind)
  {
    var e := FieldFlags(l, n);
    forall x | x in e ensures x.row == n && IsFieldError(x.kind) {
    }
    forall i | 0 <= i < |e| ensures n <= e[i].row <= n && IsFieldError(e[i].kind) {
      assert e[i] in e;
    }
  }

  /** Each blank-field diagnostic is raised exactly when its field is blank. */
  lemma FieldFlagsFound(l: Line, n: nat)
    ensures RowError(n, NoCategory) in FieldFlags(l, n) <==> l.category == ""
    ensures RowError(n, NoActionId) in FieldFlags(l, n) <==> l.action == ""
    ensures RowError(n, NoTitle) in FieldFlags(l, n) <==> l.title == ""
    ensures RowError(n, EmptyFamilyName) in FieldFlags(l, n) <==> l.familyName == ""
  {
    var a := FlagIf(l.category == "", n, NoCategory);
    var b := FlagIf(l.action == "", n, NoActionId);
    var c := FlagIf(l.title == "", n, NoTitle);
    var d := FlagIf(l.familyName == "", n, EmptyFamilyName);
    FlagIfHas(l.category == "", n, NoCategory);
    FlagIfHas(l.action == "", n, NoActionId);
    FlagIfHas(l.title == "", n, NoTitle);
    FlagIfHas(l.familyName == "", n, EmptyFamilyName);
    InFour(a, b, c, d);
  }

  /** The diagnostic `FlagIf` raises is the one it names, when it fails. */
  lemma FlagIfHas(failed: bool, n: nat, kind: ErrorKind)
    ensures forall x :: x in FlagIf(failed, n, kind) <==> failed && x == RowError(n, kind)
  {
  }

  /** Membership in four joined sequences. */
  lemma InFour(a: seq<RowError>, b: seq<RowError>, c: seq<RowError>, d: seq<RowError>)
    ensures forall x :: x in a + b + c + d <==> x in a || x in b || x in c || x in d
  {
  }

  /** A check's effect: the updated lookups (their `errors` untouched) and
      the diagnostics it raised. */
  datatype Step = Step(st: ScanState, errs: seq<RowError>)

  /** A supplied document slug must be new; a new one is registered. */
  function CheckDocSlug(st: ScanState, l: Line, n: nat): (r: Step)
    ensures r.st == st.(slugs := r.st.slugs)
    ensures r.errs == FlagIf(l.docSlug.Some? && l.docSlug.value in st.slugs, n, DuplicateDocumentSlug)
    ensures r.st.slugs == if l.docSlug.Some? then st.slugs + {l.docSlug.value} else st.slugs
  {
    match l.docSlug
    case None => Step(st, [])
    case Some(slug) =>
      if slug in st.slugs then Step(st, [RowError(n, DuplicateDocumentSlug)])
      else Step(st.(slugs := st.slugs + {slug}), [])
  }

  /** A supplied document ID must be new; a new one is mapped to the row's
      document slug. */
  function CheckDocId(st: ScanState, l: Line, n: nat): (r: Step)
    ensures r.st == st.(docInfo := r.st.docInfo)
    ensures r.errs == FlagIf(l.docId.Some? && l.docId.value in st.docInfo, n, DuplicateDocumentId)
    ensures r.st.docInfo == if l.docId.Some? && l.docId.value !in st.docInfo then st.docInfo[l.docId.value := Text(l.docSlug)] else st.docInfo
  {
    match l.docId
    case None => Step(st, [])
    case Some(id) =>
      if id in st.docInfo then Step(st, [RowError(n, DuplicateDocumentId)])
      else Step(st.(docInfo := st.docInfo[id := Text(l.docSlug)]), [])
  }

  /** The slug registered when a family's first row passes its slug check. */
  function Registered(l: Line, reg: Registration): string
    requires l.familySlug.Some?
  {
    match reg
    case FamilySlugRegistered => l.familySlug.value
    case DocSlugRegistered => Text(l.docSlug)
  }

  /** A later row of family `id`: its name must match the recorded one; if
      it does, its document ID joins the family's list. */
  function SeenFamily(st: ScanState, l: Line, id: string, n: nat): (r: Step)
    requires id in st.families
    ensures r.st == st.(families := r.st.families)
    ensures r.errs == FlagIf(l.familyName != st.families[id].name, n, ConflictingFamilyName)
    ensures r.st.families == if r.errs == [] then st.families[id := st.families[id].(docIds := st.families[id].docIds + [Text(l.docId)])] else st.families
  {
    var info := st.families[id];
    if l.familyName != info.name then Step(st, [RowError(n, ConflictingFamilyName)])
    else Step(st.(families := st.families[id := info.(docIds := info.docIds + [Text(l.docId)])]), [])
  }

  /** The first row of family `id`: a supplied family slug must be new and
      registers a slug; the family is recorded either way. */
  function NewFamily(st: ScanState, l: Line, id: string, n: nat, reg: Registration): (r: Step)
    requires id !in st.families
    ensures r.st == st.(families := r.st.families, slugs := r.st.slugs)
    ensures r.st.families == st.families[id := FamilyInfo(l.familyName, Text(l.familySlug), [Text(l.docId)])]
    ensures r.errs == FlagIf(l.familySlug.Some? && l.familySlug.value in st.slugs, n, DuplicateFamilySlug)
    ensures r.st.slugs == if l.familySlug.Some? && l.familySlug.value !in st.slugs then st.slugs + {Registered(l, reg)} else st.slugs
  {
    var info := FamilyInfo(l.familyName, Text(l.familySlug), [Text(l.docId)]);
    match l.familySlug
    case None => Step(st.(families := st.families[id := info]), [])
    case Some(slug) =>
      if slug in st.slugs then Step(st.(families := st.families[id := info]), [RowError(n, DuplicateFamilySlug)])
      else Step(st.(families := st.families[id := info], slugs := st.slugs + {Registered(l, reg)}), [])
  }

  /** `action_id_to_family_id[action]` of a `defaultdict(set)`. */
  function FamiliesOf(actions: map<string, set<string>>, action: string): set<string> {
    if action in actions then actions[action] else {}
  }

  /** `action_id_to_family_id[row["ID"]].add(id)` when the raw ID is non-empty. */
  function NoteAction(actions: map<string, set<string>>, l: Line, id: string): (r: map<string, set<string>>)
    ensures forall a :: a != l.actionKey ==> FamiliesOf(r, a) == FamiliesOf(actions, a) && (a in r <==> a in actions)
    ensures l.actionKey != "" ==> l.actionKey in r && r[l.actionKey] == FamiliesOf(actions, l.actionKey) + {id}
    ensures l.actionKey == "" ==> r == actions
  {
    if l.actionKey != "" then actions[l.actionKey := FamiliesOf(actions, l.actionKey) + {id}]
    else actions
  }

  /** The family checks of a row that supplies a family ID. */
  function CheckFamily(st: ScanState, l: Line, n: nat, reg: Registration): (r: Step)
    ensures r.st.docInfo == st.docInfo && r.st.errors == st.errors
    ensures forall i :: 0 <= i < |r.errs| ==> r.errs[i].row == n && !IsFieldError(r.errs[i].kind)
    ensures l.familyId.None? ==> r == Step(st, [])
    ensures l.familyId.Some? && l.familyId.value in st.families ==>
      r.errs == FlagIf(l.familyName != st.families[l.familyId.value].name, n, ConflictingFamilyName)
    ensures l.familyId.Some? && l.familyId.value !in st.families ==>
      r.errs == FlagIf(l.familySlug.Some? && l.familySlug.value in st.slugs, n, DuplicateFamilySlug)
  {
    match l.familyId
    case None => Step(st, [])
    case Some(id) =>
      var s := if id in st.families then SeenFamily(st, l, id, n) else NewFamily(st, l, id, n, reg);
      Step(s.st.(actions := NoteAction(s.st.actions, l, id)), s.errs)
  }

  /** The lookup checks of a row, after the blank-field ones. */
  function LookupChecks(st: ScanState, l: Line, n: nat, reg: Registration): (r: Step)
    ensures r.st.errors == st.errors
    ensures RowsWithin(r.errs, n, n)
    ensures forall i :: 0 <= i < |r.errs| ==> !IsFieldError(r.errs[i].kind)
  {
    var a := CheckDocSlug(st, l, n);
    var b := CheckDocId(a.st, l, n);
    var c := CheckFamily(b.st, l, n, reg);
    WithinConcat(a.errs, b.errs, n, n);
    WithinConcat(a.errs + b.errs, c.errs, n, n);
    Step(c.st, a.errs + b.errs + c.errs)
  }

  /** The diagnostics the `n`-th row raises: the blank-field checks, then
      the lookup checks. */
  function RowDiagnostics(prev: ScanState, l: Line, n: nat, reg: Registration): (errs: seq<RowError>)
    ensures RowsWithin(errs, n, n)
  {
    WithinConcat(FieldErrors(l, n), LookupChecks(prev, l, n, reg).errs, n, n);
    FieldErrors(l, n) + LookupChecks(prev, l, n, reg).errs
  }

  /** All checks of the `n`-th data row; its diagnostics follow those of
      earlier rows. */
  function ScanRow(st: ScanState, l: Line, n: nat, reg: Registration): (r: ScanState)
    ensures r.errors == st.errors + RowDiagnostics(st, l, n, reg)
  {
    LookupChecks(st, l, n, reg).st.(errors := st.errors + RowDiagnostics(st, l, n, reg))
  }

  /** The rows as the scanner reads them. */
  function Lines(rows: seq<Row>): (ls: seq<Line>)
    ensures |ls| == |rows|
    ensures forall i :: 0 <= i < |rows| ==> ls[i] == Read(rows[i])
  {
    seq(|rows|, i requires 0 <= i < |rows| => Read(rows[i]))
  }

  /** The pass over the rows, numbering them from 1. */
  function Scan(ls: seq<Line>, reg: Registration): ScanState {
    if |ls| == 0 then Start
    else ScanRow(Scan(ls[..|ls| - 1], reg), ls[|ls| - 1], |ls|, reg)
  }

  /** The whole first pass: the schema gate, then the rows; any flagged row
      makes the run end with the collected diagnostics. */
  function ReadExistingData(sheet: Sheet, required: seq<string>, reg: Registration): (r: Result<ScanState, Failure>)
    ensures r.Failure? && r.error.SchemaError? <==> !HasColumns(required, sheet.header)
    ensures r.Failure? && r.error.SchemaError? ==> r.error.missing != {} && r.error.missing == MissingColumns(required, sheet.header)
    ensures r.Failure? ==> r.error.SchemaError? || (r.error.RowErrors? && r.error.errors != [])
    ensures r.Failure? && r.error.RowErrors? ==> r.error.errors == Scan(Lines(sheet.rows), reg).errors
    ensures r.Success? ==> r.value == Scan(Lines(sheet.rows), reg) && r.value.errors == []
  {
    HasColumnsIff(required, sheet.header);
    if !HasColumns(required, sheet.header) then Failure(SchemaError(MissingColumns(required, sheet.header)))
    else
      var st := Scan(Lines(sheet.rows), reg);
      if st.errors != [] then Failure(RowErrors(st.errors)) else Success(st)
  }

  /** main.py's `_read_existing_data`. */
  function ReadDfcData(sheet: Sheet): Result<ScanState, Failure> {
    ReadExistingData(sheet, DfcColumns, FamilySlugRegistered)
  }

  // ---------------------------------------------------------------------
  // One row

  /** The slug a row's document slug claims. */
  function DocClaim(l: Line): set<string> {
    if l.docSlug.Some? then {l.docSlug.value} else {}
  }

  /** One step of the pass: the lookups are those the last row's checks
      leave, and its diagnostics follow the earlier ones. */
  lemma ScanLast(ls: seq<Line>, reg: Registration)
    requires |ls| > 0
    ensures var prev := Scan(ls[..|ls| - 1], reg);
      var l := ls[|ls| - 1];
      var r := LookupChecks(prev, l, |ls|, reg).st;
      var s := Scan(ls, reg);
      && s.slugs == r.slugs && s.docInfo == r.docInfo && s.families == r.families && s.actions == r.actions
      && s.errors == prev.errors + RowDiagnostics(prev, l, |ls|, reg)
  {
  }

  /** A row records a new document ID with its document slug. */
  lemma RowDocInfo(st: ScanState, l: Line, n: nat, reg: Registration)
    ensures LookupChecks(st, l, n, reg).st.docInfo ==
      if l.docId.Some? && l.docId.value !in st.docInfo then st.docInfo[l.docId.value := Text(l.docSlug)] else st.docInfo
  {
  }

  /** A row adds its family ID to the families; a known family keeps its
      name and slug, and a new one takes the row's. */
  lemma RowFamilies(st: ScanState, l: Line, n: nat, reg: Registration)
    ensures var r := LookupChecks(st, l, n, reg).st;
      && r.families.Keys == st.families.Keys + (if l.familyId.Some? then {l.familyId.value} else {})
      && (forall id :: id in st.families ==> r.families[id].name == st.families[id].name && r.families[id].slug == st.families[id].slug)
      && (l.familyId.Some? && l.familyId.value !in st.families ==>
            r.families[l.familyId.value] == FamilyInfo(l.familyName, Text(l.familySlug), [Text(l.docId)]))
  {
    var b := CheckDocId(CheckDocSlug(st, l, n).st, l, n).st;
    assert b.families == st.families;
    if l.familyId.Some? {
      FamilyChecked(b, l, l.familyId.value, n, reg);
    }
  }

  /** The family check of a row with family ID `id`, on the state `b`
      the document checks leave. */
  lemma FamilyChecked(b: ScanState, l: Line, id: string, n: nat, reg: Registration)
    requires l.familyId == Some(id)
    ensures var r := CheckFamily(b, l, n, reg).st;
      && r.families.Keys == b.families.Keys + {id}
      && (forall k :: k in b.families ==> r.families[k].name == b.families[k].name && r.families[k].slug == b.families[k].slug)
      && (id !in b.families ==> r.families[id] == FamilyInfo(l.familyName, Text(l.familySlug), [Text(l.docId)]))
  {
    if id in b.families {
      var s := SeenFamily(b, l, id, n);
      assert CheckFamily(b, l, n, reg).st.families == s.st.families;
    } else {
      var s := NewFamily(b, l, id, n, reg);
      assert CheckFamily(b, l, n, reg).st.families == s.st.families;
    }
  }

  /** A row of a known family with the recorded name adds its document ID
      to the family's list; every other list stays as it was. */
  lemma RowDocIds(st: ScanState, l: Line, n: nat, reg: Registration, id: string)
    requires id in st.families
    ensures var r := LookupChecks(st, l, n, reg).st;
      id in r.families &&
      r.families[id].docIds == st.families[id].docIds
        + if l.familyId == Some(id) && l.familyName == st.families[id].name then [Text(l.docId)] else []
  {
  }

  /** A row that supplies a family ID notes it under its raw action ID. */
  lemma RowActions(st: ScanState, l: Line, n: nat, reg: Registration)
    ensures LookupChecks(st, l, n, reg).st.actions ==
      if l.familyId.Some? then NoteAction(st.actions, l, l.familyId.value) else st.actions
  {
  }

  /** A row registers its document slug and, as the first row of its
      family, the slug `reg` names when the family slug is new. */
  lemma RowSlugs(st: ScanState, l: Line, n: nat, reg: Registration)
    ensures LookupChecks(st, l, n, reg).st.slugs ==
      st.slugs + DocClaim(l)
      + if l.familyId.Some? && l.familyId.value !in st.families && l.familySlug.Some? && l.familySlug.value !in st.slugs + DocClaim(l)
        then {Registered(l, reg)} else {}
  {
  }

  /** The lookup diagnostics of a row and the conditions that raise them. */
  lemma RowFlags(st: ScanState, l: Line, n: nat, reg: Registration)
    ensures RowError(n, DuplicateDocumentSlug) in RowDiagnostics(st, l, n, reg) <==>
      l.docSlug.Some? && l.docSlug.value in st.slugs
    ensures RowError(n, DuplicateDocumentId) in RowDiagnostics(st, l, n, reg) <==>
      l.docId.Some? && l.docId.value in st.docInfo
    ensures RowError(n, ConflictingFamilyName) in RowDiagnostics(st, l, n, reg) <==>
      l.familyId.Some? && l.familyId.value in st.families && st.families[l.familyId.value].name != l.familyName
    ensures RowError(n, DuplicateFamilySlug) in RowDiagnostics(st, l, n, reg) <==>
      l.familyId.Some? && l.familyId.value !in st.families && l.familySlug.Some? && l.familySlug.value in st.slugs + DocClaim(l)
  {
    FlagDocSlug(st, l, n, reg);
    FlagDocId(st, l, n, reg);
    FlagFamilyName(st, l, n, reg);
    FlagFamilySlug(st, l, n, reg);
  }

  /** A supplied document slug already registered is flagged. */
  lemma FlagDocSlug(st: ScanState, l: Line, n: nat, reg: Registration)
    ensures RowError(n, DuplicateDocumentSlug) in RowDiagnostics(st, l, n, reg) <==>
      l.docSlug.Some? && l.docSlug.value in st.slugs
  {
    var a := CheckDocSlug(st, l, n);
    var b := CheckDocId(a.st, l, n);
    var c := CheckFamily(b.st, l, n, reg);
    DiagnosticsSplit(st, l, n, reg);
    RowCheckKinds(st, l, n, reg);
    FlagFrom(FieldErrors(l, n), a.errs, b.errs, c.errs, n);
  }

  /** A supplied document ID already recorded is flagged. */
  lemma FlagDocId(st: ScanState, l: Line, n: nat, reg: Registration)
    ensures RowError(n, DuplicateDocumentId) in RowDiagnostics(st, l, n, reg) <==>
      l.docId.Some? && l.docId.value in st.docInfo
  {
    var a := CheckDocSlug(st, l, n);
    var b := CheckDocId(a.st, l, n);
    var c := CheckFamily(b.st, l, n, reg);
    DiagnosticsSplit(st, l, n, reg);
    RowCheckKinds(st, l, n, reg);
    FlagFrom(FieldErrors(l, n), a.errs, b.errs, c.errs, n);
  }

  /** A known family ID under another name is flagged. */
  lemma FlagFamilyName(st: ScanState, l: Line, n: nat, reg: Registration)
    ensures RowError(n, ConflictingFamilyName) in RowDiagnostics(st, l, n, reg) <==>
      l.familyId.Some? && l.familyId.value in st.families && st.families[l.familyId.value].name != l.familyName
  {
    var a := CheckDocSlug(st, l, n);
    var b := CheckDocId(a.st, l, n);
    var c := CheckFamily(b.st, l, n, reg);
    assert b.st.families == st.families && b.st.slugs == st.slugs + DocClaim(l);
    DiagnosticsSplit(st, l, n, reg);
    RowCheckKinds(st, l, n, reg);
    FamilyRaises(b.st, l, n, reg);
    FamilyFlagFrom(RowDiagnostics(st, l, n, reg), FieldErrors(l, n), a.errs, b.errs, c.errs, n, ConflictingFamilyName,
      l.familyId.Some? && l.familyId.value in st.families && st.families[l.familyId.value].name != l.familyName);
  }

  /** A new family's slug already registered, the row's own document slug included, is flagged. */
  lemma FlagFamilySlug(st: ScanState, l: Line, n: nat, reg: Registration)
    ensures RowError(n, DuplicateFamilySlug) in RowDiagnostics(st, l, n, reg) <==>
      l.familyId.Some? && l.familyId.value !in st.families && l.familySlug.Some? && l.familySlug.value in st.slugs + DocClaim(l)
  {
    var a := CheckDocSlug(st, l, n);
    var b := CheckDocId(a.st, l, n);
    var c := CheckFamily(b.st, l, n, reg);
    assert b.st.families == st.families && b.st.slugs == st.slugs + DocClaim(l);
    DiagnosticsSplit(st, l, n, reg);
    RowCheckKinds(st, l, n, reg);
    FamilyRaises(b.st, l, n, reg);
    FamilyFlagFrom(RowDiagnostics(st, l, n, reg), FieldErrors(l, n), a.errs, b.errs, c.errs, n, DuplicateFamilySlug,
      l.familyId.Some? && l.familyId.value !in st.families && l.familySlug.Some? && l.familySlug.value in st.slugs + DocClaim(l));
  }

  /** The family check raises a name conflict for a known family whose
      name differs, and a duplicate slug for a new family whose slug is
      already registered. */
  lemma FamilyRaises(st: ScanState, l: Line, n: nat, reg: Registration)
    ensures RowError(n, ConflictingFamilyName) in CheckFamily(st, l, n, reg).errs <==>
      l.familyId.Some? && l.familyId.value in st.families && st.families[l.familyId.value].name != l.familyName
    ensures RowError(n, DuplicateFamilySlug) in CheckFamily(st, l, n, reg).errs <==>
      l.familyId.Some? && l.familyId.value !in st.families && l.familySlug.Some? && l.familySlug.value in st.slugs
  {
  }

  /** A family kind is in a row's diagnostics exactly when the family
      check raised it. */
  lemma FamilyFlagFrom(diag: seq<RowError>, f: seq<RowError>, a: seq<RowError>, b: seq<RowError>, c: seq<RowError>, n: nat, kind: ErrorKind, raised: bool)
    requires kind == ConflictingFamilyName || kind == DuplicateFamilySlug
    requires diag == f + (a + (b + c)) && CheckKinds(f, a, b, c)
    requires RowError(n, kind) in c <==> raised
    ensures RowError(n, kind) in diag <==> raised
  {
    FlagFrom(f, a, b, c, n);
  }

  /** A row's diagnostics, check by check. */
  lemma DiagnosticsSplit(st: ScanState, l: Line, n: nat, reg: Registration)
    ensures var a := CheckDocSlug(st, l, n);
      var b := CheckDocId(a.st, l, n);
      RowDiagnostics(st, l, n, reg) == FieldErrors(l, n) + (a.errs + (b.errs + CheckFamily(b.st, l, n, reg).errs))
  {
    var a := CheckDocSlug(st, l, n);
    var b := CheckDocId(a.st, l, n);
    var c := CheckFamily(b.st, l, n, reg);
    assert a.errs + b.errs + c.errs == a.errs + (b.errs + c.errs);
  }

  /** The kinds each check of a row raises: blank-field kinds, then a
      duplicate document slug, a duplicate document ID, and the family
      conflicts. */
  predicate CheckKinds(f: seq<RowError>, a: seq<RowError>, b: seq<RowError>, c: seq<RowError>) {
    && (forall i :: 0 <= i < |f| ==> IsFieldError(f[i].kind))
    && (forall i :: 0 <= i < |a| ==> a[i].kind == DuplicateDocumentSlug)
    && (forall i :: 0 <= i < |b| ==> b[i].kind == DuplicateDocumentId)
    && (forall i :: 0 <= i < |c| ==> c[i].kind == ConflictingFamilyName || c[i].kind == DuplicateFamilySlug)
  }

  /** The checks of a row raise the kinds `CheckKinds` names. */
  lemma RowCheckKinds(st: ScanState, l: Line, n: nat, reg: Registration)
    ensures var a := CheckDocSlug(st, l, n);
      var b := CheckDocId(a.st, l, n);
      CheckKinds(FieldErrors(l, n), a.errs, b.errs, CheckFamily(b.st, l, n, reg).errs)
  {
    var a := CheckDocSlug(st, l, n);
    var b := CheckDocId(a.st, l, n);
    var c := CheckFamily(b.st, l, n, reg);
    if l.familyId.Some? {
      var id := l.familyId.value;
      if id in b.st.families {
        assert c.errs == SeenFamily(b.st, l, id, n).errs;
      } else {
        assert c.errs == NewFamily(b.st, l, id, n, reg).errs;
      }
    }
  }

  /** Where each lookup diagnostic of a row can come from, given the kinds
      each check raises. */
  lemma FlagFrom(f: seq<RowError>, a: seq<RowError>, b: seq<RowError>, c: seq<RowError>, n: nat)
    requires CheckKinds(f, a, b, c)
    ensures RowError(n, DuplicateDocumentSlug) in f + (a + (b + c)) <==> RowError(n, DuplicateDocumentSlug) in a
    ensures RowError(n, DuplicateDocumentId) in f + (a + (b + c)) <==> RowError(n, DuplicateDocumentId) in b
    ensures RowError(n, ConflictingFamilyName) in f + (a + (b + c)) <==> RowError(n, ConflictingFamilyName) in c
    ensures RowError(n, DuplicateFamilySlug) in f + (a + (b + c)) <==> RowError(n, DuplicateFamilySlug) in c
  {
  }

  // ---------------------------------------------------------------------
  // The diagnostics

  /** Every diagnostic names one of the rows read so far. */
  lemma {:induction false} ScanErrorsWithin(ls: seq<Line>, reg: Registration)
    ensures RowsWithin(Scan(ls, reg).errors, 1, |ls|)
    decreases |ls|
  {
    if |ls| > 0 {
      var prefix := ls[..|ls| - 1];
      ScanErrorsWithin(prefix, reg);
      ScanLast(ls, reg);
      WithinConcat(Scan(prefix, reg).errors, RowDiagnostics(Scan(prefix, reg), ls[|ls| - 1], |ls|, reg), 1, |ls|);
    }
  }

  /** Membership in a join when one side cannot hold `x`. */
  lemma InJoin(a: seq<RowError>, b: seq<RowError>, x: RowError)
    ensures x !in a ==> (x in a + b <==> x in b)
    ensures x !in b ==> (x in a + b <==> x in a)
  {
  }

  /** No diagnostic for a row outside the numbers `errs` mentions. */
  lemma NotWithin(errs: seq<RowError>, lo: int, hi: int, x: RowError)
    requires RowsWithin(errs, lo, hi)
    requires x.row < lo || hi < x.row
    ensures x !in errs
  {
  }

  /** A diagnostic naming row `i + 1` is raised by that row's checks, run
      on the lookups the rows before it left. */
  lemma {:induction false} FlaggedAt(ls: seq<Line>, i: nat, x: RowError, reg: Registration)
    requires i < |ls| && x.row == i + 1
    ensures x in Scan(ls, reg).errors <==> x in RowDiagnostics(Scan(ls[..i], reg), ls[i], i + 1, reg)
    decreases |ls|
  {
    if i == |ls| - 1 {
      FlaggedLast(ls, x, reg);
    } else {
      var prefix := ls[..|ls| - 1];
      assert prefix[..i] == ls[..i] && prefix[i] == ls[i];
      FlaggedAt(prefix, i, x, reg);
      FlaggedEarlier(ls, x, reg);
    }
  }

  /** The last row's diagnostics are its own. */
  lemma FlaggedLast(ls: seq<Line>, x: RowError, reg: Registration)
    requires |ls| > 0 && x.row == |ls|
    ensures var prefix := ls[..|ls| - 1];
      x in Scan(ls, reg).errors <==> x in RowDiagnostics(Scan(prefix, reg), ls[|ls| - 1], |ls|, reg)
  {
    var prefix := ls[..|ls| - 1];
    ScanLast(ls, reg);
    ScanErrorsWithin(prefix, reg);
    NotWithin(Scan(prefix, reg).errors, 1, |ls| - 1, x);
    InJoin(Scan(prefix, reg).errors, RowDiagnostics(Scan(prefix, reg), ls[|ls| - 1], |ls|, reg), x);
  }

  /** The last row adds no diagnostic about an earlier row. */
  lemma FlaggedEarlier(ls: seq<Line>, x: RowError, reg: Registration)
    requires |ls| > 0 && x.row != |ls|
    ensures x in Scan(ls, reg).errors <==> x in Scan(ls[..|ls| - 1], reg).errors
  {
    var prefix := ls[..|ls| - 1];
    ScanLast(ls, reg);
    var added := RowDiagnostics(Scan(prefix, reg), ls[|ls| - 1], |ls|, reg);
    NotWithin(added, |ls|, |ls|, x);
    InJoin(Scan(prefix, reg).errors, added, x);
  }

  /** Diagnostics only accumulate. */
  lemma {:induction false} ScanErrorsGrow(ls: seq<Line>, k: nat, reg: Registration)
    requires k <= |ls|
    ensures |Scan(ls[..k], reg).errors| <= |Scan(ls, reg).errors|
    decreases |ls|
  {
    if k < |ls| {
      var prefix := ls[..|ls| - 1];
      assert prefix[..k] == ls[..k];
      ScanErrorsGrow(prefix, k, reg);
      ScanLast(ls, reg);
    } else {
      assert ls[..k] == ls;
    }
  }

  /** A clean pass has clean prefixes. */
  lemma CleanPrefix(ls: seq<Line>, k: nat, reg: Registration)
    requires k <= |ls|
    requires Scan(ls, reg).errors == []
    ensures Scan(ls[..k], reg).errors == []
  {
    ScanErrorsGrow(ls, k, reg);
  }

  /** A clean pass raised nothing at its last row. */
  lemma CleanLast(ls: seq<Line>, reg: Registration)
    requires |ls| > 0 && Scan(ls, reg).errors == []
    ensures Scan(ls[..|ls| - 1], reg).errors == []
    ensures RowDiagnostics(Scan(ls[..|ls| - 1], reg), ls[|ls| - 1], |ls|, reg) == []
  {
    ScanLast(ls, reg);
  }

  /** Row `i` (0-based) is diagnosed for a blank Category, ID, Document
      title or Family name exactly when that field is blank, whatever the
      other rows hold: every row is checked. */
  lemma BlankFieldsFlagged(rows: seq<Row>, i: nat, reg: Registration)
    requires i < |rows|
    ensures RowError(i + 1, NoCategory) in Scan(Lines(rows), reg).errors <==> Blank(rows[i], "Category")
    ensures RowError(i + 1, NoActionId) in Scan(Lines(rows), reg).errors <==> Blank(rows[i], "ID")
    ensures RowError(i + 1, NoTitle) in Scan(Lines(rows), reg).errors <==> Blank(rows[i], "Document title")
    ensures RowError(i + 1, EmptyFamilyName) in Scan(Lines(rows), reg).errors <==> Blank(rows[i], "Family name")
  {
    var ls := Lines(rows);
    FieldFlagged(ls, i, NoCategory, reg);
    FieldFlagged(ls, i, NoActionId, reg);
    FieldFlagged(ls, i, NoTitle, reg);
    FieldFlagged(ls, i, EmptyFamilyName, reg);
  }

  /** A blank-field diagnostic of a row comes from its field checks alone. */
  lemma FieldFlagged(ls: seq<Line>, i: nat, kind: ErrorKind, reg: Registration)
    requires i < |ls| && IsFieldError(kind)
    ensures RowError(i + 1, kind) in Scan(ls, reg).errors <==> RowError(i + 1, kind) in FieldErrors(ls[i], i + 1)
  {
    var x := RowError(i + 1, kind);
    var before := Scan(ls[..i], reg);
    FlaggedAt(ls, i, x, reg);
    NotLookup(before, ls[i], i + 1, reg, x);
    InJoin(FieldErrors(ls[i], i + 1), LookupChecks(before, ls[i], i + 1, reg).errs, x);
  }

  /** The lookup checks raise no blank-field diagnostic. */
  lemma NotLookup(st: ScanState, l: Line, n: nat, reg: Registration, x: RowError)
    requires IsFieldError(x.kind)
    ensures x !in LookupChecks(st, l, n, reg).errs
  {
  }

  // ---------------------------------------------------------------------
  // The lookups in closed form

  /** Some line supplies family ID `id`. */
  predicate HasFamily(ls: seq<Line>, id: string) {
    exists k :: 0 <= k < |ls| && ls[k].familyId == Some(id)
  }

  /** Line `k` is the first to supply its family ID. */
  predicate FirstOfFamily(ls: seq<Line>, k: int) {
    && 0 <= k < |ls|
    && ls[k].familyId.Some?
    && forall m :: 0 <= m < k ==> ls[m].familyId != ls[k].familyId
  }

  /** Some line supplies document ID `id`. */
  predicate HasDocId(ls: seq<Line>, id: string) {
    exists k :: 0 <= k < |ls| && ls[k].docId == Some(id)
  }

  /** Line `k` is the first to supply its document ID. */
  predicate FirstOfDocId(ls: seq<Line>, k: int) {
    && 0 <= k < |ls|
    && ls[k].docId.Some?
    && forall m :: 0 <= m < k ==> ls[m].docId != ls[k].docId
  }

  /** The families are the family IDs any line supplies, flagged or not. */
  lemma {:induction false} FamilyKnown(ls: seq<Line>, id: string, reg: Registration)
    ensures id in Scan(ls, reg).families <==> HasFamily(ls, id)
    decreases |ls|
  {
    if |ls| > 0 {
      var prefix := ls[..|ls| - 1];
      FamilyKnown(prefix, id, reg);
      FamilyStep(ls, id, reg);
      HasFamilySnoc(ls, id);
    }
  }

  /** The last line adds its family ID, if it supplies one. */
  lemma FamilyStep(ls: seq<Line>, id: string, reg: Registration)
    requires |ls| > 0
    ensures id in Scan(ls, reg).families <==> id in Scan(ls[..|ls| - 1], reg).families || ls[|ls| - 1].familyId == Some(id)
  {
    ScanLast(ls, reg);
    RowFamilies(Scan(ls[..|ls| - 1], reg), ls[|ls| - 1], |ls|, reg);
  }

  lemma HasFamilySnoc(ls: seq<Line>, id: string)
    requires |ls| > 0
    ensures HasFamily(ls, id) <==> HasFamily(ls[..|ls| - 1], id) || ls[|ls| - 1].familyId == Some(id)
  {
    var prefix := ls[..|ls| - 1];
    if HasFamily(prefix, id) {
      var k :| 0 <= k < |prefix| && prefix[k].familyId == Some(id);
      assert ls[k] == prefix[k];
    }
    if HasFamily(ls, id) && ls[|ls| - 1].familyId != Some(id) {
      var k :| 0 <= k < |ls| && ls[k].familyId == Some(id);
      assert prefix[k] == ls[k];
    }
  }

  /** The document IDs recorded are those any line supplies. */
  lemma {:induction false} DocIdKnown(ls: seq<Line>, id: string, reg: Registration)
    ensures id in Scan(ls, reg).docInfo <==> HasDocId(ls, id)
    decreases |ls|
  {
    if |ls| > 0 {
      var prefix := ls[..|ls| - 1];
      DocIdKnown(prefix, id, reg);
      DocIdStep(ls, id, reg);
      HasDocIdSnoc(ls, id);
    }
  }

  /** The last line adds its document ID, if it supplies one. */
  lemma DocIdStep(ls: seq<Line>, id: string, reg: Registration)
    requires |ls| > 0
    ensures id in Scan(ls, reg).docInfo <==> id in Scan(ls[..|ls| - 1], reg).docInfo || ls[|ls| - 1].docId == Some(id)
  {
    ScanLast(ls, reg);
    RowDocInfo(Scan(ls[..|ls| - 1], reg), ls[|ls| - 1], |ls|, reg);
  }

  lemma HasDocIdSnoc(ls: seq<Line>, id: string)
    requires |ls| > 0
    ensures HasDocId(ls, id) <==> HasDocId(ls[..|ls| - 1], id) || ls[|ls| - 1].docId == Some(id)
  {
    var prefix := ls[..|ls| - 1];
    if HasDocId(prefix, id) {
      var k :| 0 <= k < |prefix| && prefix[k].docId == Some(id);
      assert ls[k] == prefix[k];
    }
    if HasDocId(ls, id) && ls[|ls| - 1].docId != Some(id) {
      var k :| 0 <= k < |ls| && ls[k].docId == Some(id);
      assert prefix[k] == ls[k];
    }
  }

  /** Being first among the lines does not depend on the lines after. */
  lemma PrefixFirst(ls: seq<Line>, i: nat, k: int)
    requires i <= |ls| && 0 <= k < i
    ensures FirstOfFamily(ls[..i], k) <==> FirstOfFamily(ls, k)
    ensures FirstOfDocId(ls[..i], k) <==> FirstOfDocId(ls, k)
  {
    assert forall m :: 0 <= m <= k ==> ls[..i][m] == ls[m];
  }

  /** A family is named, and its slug taken, by the first line that
      supplies its ID; later lines never overwrite them. */
  lemma {:induction false} FamilyFromFirst(ls: seq<Line>, k: nat, reg: Registration)
    requires FirstOfFamily(ls, k)
    ensures var id := ls[k].familyId.value;
      && id in Scan(ls, reg).families
      && Scan(ls, reg).families[id].name == ls[k].familyName
      && Scan(ls, reg).families[id].slug == Text(ls[k].familySlug)
    decreases |ls|
  {
    var last := |ls| - 1;
    if k == last {
      FamilyNew(ls, reg);
    } else {
      PrefixFirst(ls, last, k);
      FamilyFromFirst(ls[..last], k, reg);
      FamilyKept(ls, ls[k].familyId.value, reg);
    }
  }

  /** The first line of a family records it. */
  lemma FamilyNew(ls: seq<Line>, reg: Registration)
    requires FirstOfFamily(ls, |ls| - 1)
    ensures var l := ls[|ls| - 1];
      && l.familyId.value in Scan(ls, reg).families
      && Scan(ls, reg).families[l.familyId.value] == FamilyInfo(l.familyName, Text(l.familySlug), [Text(l.docId)])
  {
    var prefix := ls[..|ls| - 1];
    var id := ls[|ls| - 1].familyId.value;
    FamilyKnown(prefix, id, reg);
    assert forall m :: 0 <= m < |prefix| ==> prefix[m] == ls[m];
    ScanLast(ls, reg);
    RowFamilies(Scan(prefix, reg), ls[|ls| - 1], |ls|, reg);
  }

  /** A recorded family keeps its name and slug. */
  lemma FamilyKept(ls: seq<Line>, id: string, reg: Registration)
    requires |ls| > 0 && id in Scan(ls[..|ls| - 1], reg).families
    ensures var before := Scan(ls[..|ls| - 1], reg).families[id];
      && id in Scan(ls, reg).families
      && Scan(ls, reg).families[id].name == before.name
      && Scan(ls, reg).families[id].slug == before.slug
  {
    ScanLast(ls, reg);
    RowFamilies(Scan(ls[..|ls| - 1], reg), ls[|ls| - 1], |ls|, reg);
  }

  /** A document ID maps to the document slug of the first line that
      supplies it. */
  lemma {:induction false} DocIdFromFirst(ls: seq<Line>, k: nat, reg: Registration)
    requires FirstOfDocId(ls, k)
    ensures var id := ls[k].docId.value;
      id in Scan(ls, reg).docInfo && Scan(ls, reg).docInfo[id] == Text(ls[k].docSlug)
    decreases |ls|
  {
    var last := |ls| - 1;
    if k == last {
      DocIdNew(ls, reg);
    } else {
      PrefixFirst(ls, last, k);
      DocIdFromFirst(ls[..last], k, reg);
      DocIdKept(ls, ls[k].docId.value, reg);
    }
  }

  /** The first line of a document ID records it. */
  lemma DocIdNew(ls: seq<Line>, reg: Registration)
    requires FirstOfDocId(ls, |ls| - 1)
    ensures var l := ls[|ls| - 1];
      l.docId.value in Scan(ls, reg).docInfo && Scan(ls, reg).docInfo[l.docId.value] == Text(l.docSlug)
  {
    var prefix := ls[..|ls| - 1];
    var id := ls[|ls| - 1].docId.value;
    DocIdKnown(prefix, id, reg);
    assert forall m :: 0 <= m < |prefix| ==> prefix[m] == ls[m];
    ScanLast(ls, reg);
    RowDocInfo(Scan(prefix, reg), ls[|ls| - 1], |ls|, reg);
  }

  /** A recorded document ID keeps its slug. */
  lemma DocIdKept(ls: seq<Line>, id: string, reg: Registration)
    requires |ls| > 0 && id in Scan(ls[..|ls| - 1], reg).docInfo
    ensures id in Scan(ls, reg).docInfo && Scan(ls, reg).docInfo[id] == Scan(ls[..|ls| - 1], reg).docInfo[id]
  {
    ScanLast(ls, reg);
    RowDocInfo(Scan(ls[..|ls| - 1], reg), ls[|ls| - 1], |ls|, reg);
  }

  /** A supplied family ID has a first line. */
  lemma {:induction false} FirstFamilyExists(ls: seq<Line>, id: string)
    requires HasFamily(ls, id)
    ensures exists k :: FirstOfFamily(ls, k) && ls[k].familyId == Some(id)
    decreases |ls|
  {
    var last := |ls| - 1;
    var prefix := ls[..last];
    if HasFamily(prefix, id) {
      FirstFamilyExists(prefix, id);
      var k :| FirstOfFamily(prefix, k) && prefix[k].familyId == Some(id);
      PrefixFirst(ls, last, k);
    } else {
      forall m | 0 <= m < last ensures ls[m].familyId != Some(id) {
        assert prefix[m] == ls[m];
      }
      assert FirstOfFamily(ls, last);
    }
  }

  /** Row `i` is flagged for its document ID exactly when an earlier row
      supplied the same ID. */
  lemma DocIdFlagged(ls: seq<Line>, i: nat, reg: Registration)
    requires i < |ls|
    ensures RowError(i + 1, DuplicateDocumentId) in Scan(ls, reg).errors <==>
      ls[i].docId.Some? && HasDocId(ls[..i], ls[i].docId.value)
  {
    FlaggedAt(ls, i, RowError(i + 1, DuplicateDocumentId), reg);
    FlagDocId(Scan(ls[..i], reg), ls[i], i + 1, reg);
    if ls[i].docId.Some? {
      DocIdKnown(ls[..i], ls[i].docId.value, reg);
    }
  }

  /** Row `i` is flagged for its family name exactly when its family ID
      was first supplied, earlier, by a row with another family name. */
  lemma FamilyNameFlagged(ls: seq<Line>, i: nat, reg: Registration)
    requires i < |ls|
    ensures RowError(i + 1, ConflictingFamilyName) in Scan(ls, reg).errors <==>
      exists k :: 0 <= k < i && FirstOfFamily(ls, k) && ls[k].familyId == ls[i].familyId && ls[k].familyName != ls[i].familyName
  {
    FlaggedAt(ls, i, RowError(i + 1, ConflictingFamilyName), reg);
    FlagFamilyName(Scan(ls[..i], reg), ls[i], i + 1, reg);
    if ls[i].familyId.Some? {
      KnownName(ls[..i], ls[i].familyId.value, ls[i].familyName, reg);
      NameWitness(ls, i);
    }
  }

  /** A recorded family carries another name exactly when its first line
      does. */
  lemma KnownName(p: seq<Line>, id: string, name: string, reg: Registration)
    ensures (id in Scan(p, reg).families && Scan(p, reg).families[id].name != name) <==>
      exists k :: FirstOfFamily(p, k) && p[k].familyId == Some(id) && p[k].familyName != name
  {
    FamilyKnown(p, id, reg);
    if HasFamily(p, id) {
      FirstFamilyExists(p, id);
      var k :| FirstOfFamily(p, k) && p[k].familyId == Some(id);
      FamilyFromFirst(p, k, reg);
    }
  }

  /** The first-line witnesses among the first `i` lines are those of the
      whole sequence below `i`. */
  lemma NameWitness(ls: seq<Line>, i: nat)
    requires i < |ls| && ls[i].familyId.Some?
    ensures (exists k :: FirstOfFamily(ls[..i], k) && ls[..i][k].familyId == ls[i].familyId && ls[..i][k].familyName != ls[i].familyName) <==>
      exists k :: 0 <= k < i && FirstOfFamily(ls, k) && ls[k].familyId == ls[i].familyId && ls[k].familyName != ls[i].familyName
  {
    if exists k :: FirstOfFamily(ls[..i], k) && ls[..i][k].familyId == ls[i].familyId && ls[..i][k].familyName != ls[i].familyName {
      var k :| FirstOfFamily(ls[..i], k) && ls[..i][k].familyId == ls[i].familyId && ls[..i][k].familyName != ls[i].familyName;
      PrefixFirst(ls, i, k);
    }
    if exists k :: 0 <= k < i && FirstOfFamily(ls, k) && ls[k].familyId == ls[i].familyId && ls[k].familyName != ls[i].familyName {
      var k :| 0 <= k < i && FirstOfFamily(ls, k) && ls[k].familyId == ls[i].familyId && ls[k].familyName != ls[i].familyName;
      PrefixFirst(ls, i, k);
      assert ls[..i][k] == ls[k];
    }
  }

  // ---------------------------------------------------------------------
  // Slugs

  /** The elements of a sequence. */
  function Elems(s: seq<string>): set<string> {
    set x | x in s
  }

  /** No slug occurs twice. */
  predicate Distinct(s: seq<string>) {
    forall i, j :: 0 <= i < j < |s| ==> s[i] != s[j]
  }

  /** The slugs line `k` claims: its document slug, and its family slug
      when it is the first line of its family. */
  function LineClaims(ls: seq<Line>, k: int): seq<string>
    requires 0 <= k < |ls|
  {
    (if ls[k].docSlug.Some? then [ls[k].docSlug.value] else [])
    + (if FirstOfFamily(ls, k) && ls[k].familySlug.Some? then [ls[k].familySlug.value] else [])
  }

  /** The slugs the lines claim, in order. */
  function Claims(ls: seq<Line>): seq<string> {
    if |ls| == 0 then [] else Claims(ls[..|ls| - 1]) + LineClaims(ls, |ls| - 1)
  }

  lemma ElemsConcat(a: seq<string>, b: seq<string>)
    ensures Elems(a + b) == Elems(a) + Elems(b)
  {
  }

  /** For the last line, "first of its family" is "its family ID is not
      yet recorded". */
  lemma FirstIsNew(ls: seq<Line>, reg: Registration)
    requires |ls| > 0 && ls[|ls| - 1].familyId.Some?
    ensures FirstOfFamily(ls, |ls| - 1) <==> ls[|ls| - 1].familyId.value !in Scan(ls[..|ls| - 1], reg).families
  {
    var prefix := ls[..|ls| - 1];
    FamilyKnown(prefix, ls[|ls| - 1].familyId.value, reg);
    assert forall m :: 0 <= m < |prefix| ==> prefix[m] == ls[m];
  }

  /** With the family slug registered, the slug set is exactly the slugs
      the lines claim, flagged or not: a slug already present is not
      added again, and adding it would change nothing. */
  lemma {:induction false} SlugsClaimed(ls: seq<Line>)
    ensures Scan(ls, FamilySlugRegistered).slugs == Elems(Claims(ls))
    decreases |ls|
  {
    if |ls| > 0 {
      var prefix := ls[..|ls| - 1];
      SlugsClaimed(prefix);
      SlugsStep(ls);
      ElemsConcat(Claims(prefix), LineClaims(ls, |ls| - 1));
    }
  }

  /** One line adds the slugs it claims. */
  lemma SlugsStep(ls: seq<Line>)
    requires |ls| > 0
    ensures Scan(ls, FamilySlugRegistered).slugs == Scan(ls[..|ls| - 1], FamilySlugRegistered).slugs + Elems(LineClaims(ls, |ls| - 1))
  {
    var l := ls[|ls| - 1];
    ScanLast(ls, FamilySlugRegistered);
    RowSlugs(Scan(ls[..|ls| - 1], FamilySlugRegistered), l, |ls|, FamilySlugRegistered);
    if l.familyId.Some? {
      FirstIsNew(ls, FamilySlugRegistered);
    }
    LineClaimsElems(ls, |ls| - 1);
  }

  /** The slugs of one line, as a set. */
  lemma LineClaimsElems(ls: seq<Line>, k: int)
    requires 0 <= k < |ls|
    ensures Elems(LineClaims(ls, k)) ==
      DocClaim(ls[k]) + if FirstOfFamily(ls, k) && ls[k].familySlug.Some? then {ls[k].familySlug.value} else {}
  {
  }

  /** A supplied document slug is flagged exactly when an earlier row
      claimed it. */
  lemma DocSlugFlagged(ls: seq<Line>, i: nat)
    requires i < |ls|
    ensures RowError(i + 1, DuplicateDocumentSlug) in Scan(ls, FamilySlugRegistered).errors <==>
      ls[i].docSlug.Some? && ls[i].docSlug.value in Claims(ls[..i])
  {
    FlaggedAt(ls, i, RowError(i + 1, DuplicateDocumentSlug), FamilySlugRegistered);
    FlagDocSlug(Scan(ls[..i], FamilySlugRegistered), ls[i], i + 1, FamilySlugRegistered);
    SlugsClaimed(ls[..i]);
  }

  /** The family slug of a family's first row is flagged exactly when an
      earlier row claimed it or it equals the row's own document slug. */
  lemma FamilySlugFlagged(ls: seq<Line>, i: nat)
    requires i < |ls|
    ensures RowError(i + 1, DuplicateFamilySlug) in Scan(ls, FamilySlugRegistered).errors <==>
      && FirstOfFamily(ls, i) && ls[i].familySlug.Some?
      && (ls[i].familySlug.value in Claims(ls[..i]) || ls[i].familySlug == ls[i].docSlug)
  {
    var prefix := ls[..i];
    var st := Scan(prefix, FamilySlugRegistered);
    FlaggedAt(ls, i, RowError(i + 1, DuplicateFamilySlug), FamilySlugRegistered);
    FlagFamilySlug(st, ls[i], i + 1, FamilySlugRegistered);
    SlugsClaimed(prefix);
    FirstIsNewAt(ls, i, FamilySlugRegistered);
    FamilySlugCase(ls[i], st.families, st.slugs, Claims(prefix), FirstOfFamily(ls, i),
      RowError(i + 1, DuplicateFamilySlug) in Scan(ls, FamilySlugRegistered).errors,
      RowError(i + 1, DuplicateFamilySlug) in RowDiagnostics(st, ls[i], i + 1, FamilySlugRegistered));
  }

  /** `FirstIsNew` for any line. */
  lemma FirstIsNewAt(ls: seq<Line>, i: nat, reg: Registration)
    requires i < |ls|
    ensures ls[i].familyId.Some? ==> (FirstOfFamily(ls, i) <==> ls[i].familyId.value !in Scan(ls[..i], reg).families)
    ensures FirstOfFamily(ls, i) ==> ls[i].familyId.Some?
  {
    if ls[i].familyId.Some? {
      assert ls[..i + 1][..i] == ls[..i] && ls[..i + 1][i] == ls[i];
      FirstIsNew(ls[..i + 1], reg);
      PrefixFirst(ls, i + 1, i);
    }
  }

  /** `FamilySlugFlagged` once the flag condition is read off. */
  lemma FamilySlugCase(l: Line, families: map<string, FamilyInfo>, known: set<string>, claims: seq<string>,
                       first: bool, inErrors: bool, inRow: bool)
    requires inErrors <==> inRow
    requires inRow <==> l.familyId.Some? && l.familyId.value !in families && l.familySlug.Some? && l.familySlug.value in known + DocClaim(l)
    requires known == Elems(claims)
    requires l.familyId.Some? ==> (first <==> l.familyId.value !in families)
    requires first ==> l.familyId.Some?
    ensures inErrors <==> first && l.familySlug.Some? && (l.familySlug.value in claims || l.familySlug == l.docSlug)
  {
  }

  /** No element of `b` occurs in `a`. */
  predicate Disjoint(a: seq<string>, b: seq<string>) {
    forall j :: 0 <= j < |b| ==> b[j] !in a
  }

  /** Joining two duplicate-free sequences with no common element. */
  lemma DistinctAppend(a: seq<string>, b: seq<string>)
    requires Distinct(a) && Distinct(b) && Disjoint(a, b)
    ensures Distinct(a + b)
  {
    forall i, j | 0 <= i < j < |a + b| ensures (a + b)[i] != (a + b)[j] {
      if j >= |a| && i < |a| {
        assert (a + b)[j] == b[j - |a|];
        assert (a + b)[i] in a;
      }
    }
  }

  /** A clean pass leaves no slug claimed twice: every document slug and
      every family's slug differ from all the others. */
  lemma {:induction false} CleanClaimsDistinct(ls: seq<Line>)
    requires Scan(ls, FamilySlugRegistered).errors == []
    ensures Distinct(Claims(ls))
    decreases |ls|
  {
    if |ls| > 0 {
      var prefix := ls[..|ls| - 1];
      CleanLast(ls, FamilySlugRegistered);
      CleanClaimsDistinct(prefix);
      NewClaims(ls);
      DistinctAppend(Claims(prefix), LineClaims(ls, |ls| - 1));
    }
  }

  /** A last line that raised nothing claims slugs that are new and
      differ from each other. */
  lemma NewClaims(ls: seq<Line>)
    requires |ls| > 0
    requires RowDiagnostics(Scan(ls[..|ls| - 1], FamilySlugRegistered), ls[|ls| - 1], |ls|, FamilySlugRegistered) == []
    ensures Distinct(LineClaims(ls, |ls| - 1))
    ensures Disjoint(Claims(ls[..|ls| - 1]), LineClaims(ls, |ls| - 1))
  {
    var prefix := ls[..|ls| - 1];
    var l := ls[|ls| - 1];
    RowFlags(Scan(prefix, FamilySlugRegistered), l, |ls|, FamilySlugRegistered);
    SlugsClaimed(prefix);
    if l.familyId.Some? {
      FirstIsNew(ls, FamilySlugRegistered);
    }
    NewClaimsOf(ls, Scan(prefix, FamilySlugRegistered).slugs);
  }

  /** `NewClaims` once the flag conditions are read off: the last line's
      slugs are new to `claimed`, the slugs claimed before it. */
  lemma NewClaimsOf(ls: seq<Line>, claimed: set<string>)
    requires |ls| > 0 && claimed == Elems(Claims(ls[..|ls| - 1]))
    requires ls[|ls| - 1].docSlug.Some? ==> ls[|ls| - 1].docSlug.value !in claimed
    requires FirstOfFamily(ls, |ls| - 1) && ls[|ls| - 1].familySlug.Some? ==>
      ls[|ls| - 1].familySlug.value !in claimed + DocClaim(ls[|ls| - 1])
    ensures Distinct(LineClaims(ls, |ls| - 1))
    ensures Disjoint(Claims(ls[..|ls| - 1]), LineClaims(ls, |ls| - 1))
  {
  }

  /** A supplied document slug stays registered for every later row. */
  lemma {:induction false} DocSlugSeen(ls: seq<Line>, j: nat, k: nat, reg: Registration)
    requires j < k <= |ls| && ls[j].docSlug.Some?
    ensures ls[j].docSlug.value in Scan(ls[..k], reg).slugs
    decreases k
  {
    if j < k - 1 {
      DocSlugSeen(ls, j, k - 1, reg);
      SlugsKept(ls, k, reg);
    } else {
      DocSlugAdded(ls, j, reg);
    }
  }

  /** Row `k` keeps every slug registered before it. */
  lemma SlugsKept(ls: seq<Line>, k: nat, reg: Registration)
    requires 0 < k <= |ls|
    ensures Scan(ls[..k - 1], reg).slugs <= Scan(ls[..k], reg).slugs
  {
    var p := ls[..k];
    assert p[..k - 1] == ls[..k - 1] && p[k - 1] == ls[k - 1];
    ScanLast(p, reg);
    RowSlugs(Scan(ls[..k - 1], reg), ls[k - 1], k, reg);
  }

  /** A supplied document slug is registered by its own row. */
  lemma DocSlugAdded(ls: seq<Line>, j: nat, reg: Registration)
    requires j < |ls| && ls[j].docSlug.Some?
    ensures ls[j].docSlug.value in Scan(ls[..j + 1], reg).slugs
  {
    var p := ls[..j + 1];
    assert p[..j] == ls[..j] && p[j] == ls[j];
    ScanLast(p, reg);
    RowSlugs(Scan(ls[..j], reg), ls[j], j + 1, reg);
  }

  /** Whatever slug the first row of a family registers, a clean pass
      accepts no document slug twice. */
  lemma DocSlugsDiffer(ls: seq<Line>, j: nat, k: nat, reg: Registration)
    requires Scan(ls, reg).errors == []
    requires j < k < |ls| && ls[j].docSlug.Some? && ls[k].docSlug.Some?
    ensures ls[j].docSlug.value != ls[k].docSlug.value
  {
    DocSlugSeen(ls, j, k, reg);
    FlaggedAt(ls, k, RowError(k + 1, DuplicateDocumentSlug), reg);
    FlagDocSlug(Scan(ls[..k], reg), ls[k], k + 1, reg);
  }

  /** main.py's first pass: when it accepts the sheet, no slug is claimed
      twice, and the slug set is exactly the claimed slugs. */
  lemma DfcSlugsDistinct(sheet: Sheet)
    requires ReadDfcData(sheet).Success?
    ensures Distinct(Claims(Lines(sheet.rows)))
    ensures ReadDfcData(sheet).value.slugs == Elems(Claims(Lines(sheet.rows)))
  {
    CleanClaimsDistinct(Lines(sheet.rows));
    SlugsClaimed(Lines(sheet.rows));
  }
}
