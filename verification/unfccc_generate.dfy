/** The second pass of UNFCCC/main.py (`_process_csv`): fill in every row's
    CPR document ID, document slug, family ID and family slug, and mark the
    document published. Rows are numbered from a caller-supplied offset;
    a family is identified by its name alone, and each family's missing ID
    or slug is generated once and then reused. */
module UnfcccGenerate {
  import opened Wrappers
  import opened Strings
  import opened Table
  import opened Slugs
  import UnfcccScan

  type Families = map<string, UnfcccScan.FamilyRecord>

  /** What the pass reads from a row: stripped cells, except the author
      type, which is only lower-cased. */
  datatype Request = Request(
    authorType: string, title: string, familyName: string,
    docId: string, docSlug: string, familyId: string, familySlug: string)

  function Ask(row: Row): Request {
    Request(
      Lower(Field(row, "Author Type")), Cell(row, "Document Title"), Cell(row, "Family Name"),
      Cell(row, CprDocumentId), Cell(row, CprDocumentSlug), Cell(row, CprFamilyId), Cell(row, CprFamilySlug))
  }

  function Asks(rows: seq<Row>): (qs: seq<Request>)
    ensures |qs| == |rows|
    ensures forall k :: 0 <= k < |rows| ==> qs[k] == Ask(rows[k])
  {
    seq(|rows|, k requires 0 <= k < |rows| => Ask(rows[k]))
  }

  /** `f"CCLW.{author_type}.{row_count}.0"`. */
  function DocIdTemplate(authorType: string, number: int): string {
    "CCLW." + authorType + "." + IntToString(number) + ".0"
  }

  /** `f"UNFCCC.family.{index}.0"`. */
  function FamilyIdTemplate(index: int): string {
    "UNFCCC.family." + IntToString(index) + ".0"
  }

  /** The four values written into a row. */
  datatype Resolved = Resolved(docId: string, docSlug: string, familyId: string, familySlug: string)

  /** A family value and the family records afterwards. */
  datatype Assigned = Assigned(value: string, families: Families)

  /** The CPR Family ID: the row's own; else its family's, generating and
      recording one from the row's index when the family has none. A row
      that needs its family's record when the name has none fails as the
      script's `KeyError`. */
  function FamilyIdFor(q: Request, fams: Families, index: int): (r: Result<Assigned, Failure>)
    ensures r.Failure? <==> q.familyId == "" && q.familyName !in fams
    ensures r.Failure? ==> r.error == MissingFamily(q.familyName)
    ensures r.Success? ==> r.value.families.Keys == fams.Keys
  {
    if q.familyId != "" then Success(Assigned(q.familyId, fams))
    else if q.familyName !in fams then Failure(MissingFamily(q.familyName))
    else
      var rec := fams[q.familyName];
      match rec.id
      case Some(v) => Success(Assigned(v, fams))
      case None =>
        var t := FamilyIdTemplate(index);
        Success(Assigned(t, fams[q.familyName := rec.(id := Some(t))]))
  }

  /** A family slug, the family records, the slug lookup and the next draw. */
  datatype SlugAssigned = SlugAssigned(slug: string, families: Families, lookup: set<string>, cursor: nat)

  /** The CPR Family Slug: the row's own; else its family's, drawing and
      recording a new one from the family name when the family has none. */
  function FamilySlugFor(q: Request, fams: Families, lookup: set<string>, env: Env, cursor: nat): (r: Result<SlugAssigned, Failure>)
    ensures r.Failure? ==> r.error == MissingFamily(q.familyName) || r.error == SlugExhausted(env.slugify(q.familyName))
    ensures r.Failure? && r.error.MissingFamily? <==> q.familySlug == "" && q.familyName !in fams
    ensures r.Success? ==> r.value.families.Keys == fams.Keys && lookup <= r.value.lookup
  {
    if q.familySlug != "" then Success(SlugAssigned(q.familySlug, fams, lookup, cursor))
    else if q.familyName !in fams then Failure(MissingFamily(q.familyName))
    else
      var rec := fams[q.familyName];
      match rec.slug
      case Some(v) => Success(SlugAssigned(v, fams, lookup, cursor))
      case None =>
        var c :- NextSlug(env.slugify(q.familyName), lookup, env.uuid, cursor, true);
        Success(SlugAssigned(c.slug, fams[q.familyName := rec.(slug := Some(c.slug))], c.lookup, c.cursor))
  }

  /** Everything the pass carries from row to row. */
  datatype GenState = GenState(slugs: set<string>, families: Families, cursor: nat, out: seq<Resolved>)

  /** One row; `index` is `row_offset` plus the row's 0-based position. */
  function GenRow(g: GenState, q: Request, index: int, env: Env): (r: Result<GenState, Failure>)
    ensures r.Failure? ==> r.error.SlugExhausted? || r.error == MissingFamily(q.familyName)
    ensures r.Failure? && r.error.MissingFamily? ==> q.familyName !in g.families
    ensures r.Success? ==>
      && |r.value.out| == |g.out| + 1
      && (forall j :: 0 <= j < |g.out| ==> r.value.out[j] == g.out[j])
      && g.slugs <= r.value.slugs
      && r.value.families.Keys == g.families.Keys
  {
    var docId := if q.docId != "" then q.docId else DocIdTemplate(q.authorType, index + 1);
    var d :- SlugFor(q.docSlug, env.slugify(q.title), g.slugs, env, g.cursor, true);
    var fid :- FamilyIdFor(q, g.families, index);
    var fs :- FamilySlugFor(q, fid.families, d.lookup, env, d.cursor);
    Success(GenState(fs.lookup, fs.families, fs.cursor, g.out + [Resolved(docId, d.slug, fid.value, fs.slug)]))
  }

  /** Every request names a family that has a record. */
  predicate NamesKnown(qs: seq<Request>, fams: Families) {
    forall j :: 0 <= j < |qs| ==> qs[j].familyName in fams
  }

  /** The pass over the rows, the first from `offset` on. */
  function Generate(qs: seq<Request>, offset: int, fams: Families, slugs: set<string>, env: Env): (r: Result<GenState, Failure>)
    ensures r.Success? ==> |r.value.out| == |qs| && slugs <= r.value.slugs && r.value.families.Keys == fams.Keys
    ensures r.Failure? && NamesKnown(qs, fams) ==> r.error.SlugExhausted?
  {
    if |qs| == 0 then Success(GenState(slugs, fams, 0, []))
    else
      var prefix := qs[..|qs| - 1];
      assert NamesKnown(qs, fams) ==> NamesKnown(prefix, fams);
      match Generate(prefix, offset, fams, slugs, env)
      case Failure(e) => Failure(e)
      case Success(g) => GenRow(g, qs[|qs| - 1], offset + |qs| - 1, env)
  }

  /** `{**row, **{...}}` with the four values and the status `PUBLISHED`. */
  function Emit(row: Row, res: Resolved): (r: Row)
    ensures r.Keys == row.Keys + {CprDocumentId, CprDocumentSlug, CprDocumentStatus, CprFamilyId, CprFamilySlug}
    ensures forall k :: k in row && k !in {CprDocumentId, CprDocumentSlug, CprDocumentStatus, CprFamilyId, CprFamilySlug} ==> r[k] == row[k]
    ensures r[CprDocumentId] == res.docId && r[CprDocumentSlug] == res.docSlug
    ensures r[CprDocumentStatus] == "PUBLISHED"
    ensures r[CprFamilyId] == res.familyId && r[CprFamilySlug] == res.familySlug
  {
    row[CprDocumentId := res.docId][CprDocumentSlug := res.docSlug][CprDocumentStatus := "PUBLISHED"]
       [CprFamilyId := res.familyId][CprFamilySlug := res.familySlug]
  }

  /** The output rows, each input row with its values written in. */
  function EmitAll(rows: seq<Row>, out: seq<Resolved>): (r: seq<Row>)
    requires |out| == |rows|
    ensures |r| == |rows|
    ensures forall k :: 0 <= k < |rows| ==> r[k] == Emit(rows[k], out[k])
  {
    seq(|rows|, k requires 0 <= k < |rows| => Emit(rows[k], out[k]))
  }

  /** `_process_csv(path, row_offset)`: the first pass, then the second on
      the slugs and family records it collected. */
  function ProcessCsv(sheet: Sheet, offset: int, env: Env): (r: Result<seq<Row>, Failure>)
    ensures UnfcccScan.ReadExistingData(sheet).Failure? ==> r == Failure(UnfcccScan.ReadExistingData(sheet).error)
    ensures r.Success? ==>
      && UnfcccScan.ReadExistingData(sheet).Success?
      && var k := UnfcccScan.ReadExistingData(sheet).value;
      && var g := Generate(Asks(sheet.rows), offset, k.families, k.slugs, env);
      && g.Success?
      && |r.value| == |sheet.rows|
      && forall j :: 0 <= j < |sheet.rows| ==> r.value[j] == Emit(sheet.rows[j], g.value.out[j])
  {
    match UnfcccScan.ReadExistingData(sheet)
    case Failure(e) => Failure(e)
    case Success(k) =>
      match Generate(Asks(sheet.rows), offset, k.families, k.slugs, env)
      case Failure(e) => Failure(e)
      case Success(g) => Success(EmitAll(sheet.rows, g.out))
  }


  // ---------------------------------------------------------------------
  // The pass, row by row

  /** The rows resolved for a prefix are those the whole pass resolves. */
  lemma GenPrefix(qs: seq<Request>, k: nat, offset: int, fams: Families, slugs: set<string>, env: Env)
    requires k <= |qs| && Generate(qs, offset, fams, slugs, env).Success?
    ensures Generate(qs[..k], offset, fams, slugs, env).Success?
    ensures forall j :: 0 <= j < k ==> Generate(qs[..k], offset, fams, slugs, env).value.out[j] == Generate(qs, offset, fams, slugs, env).value.out[j]
  {
    PrefixSameOut(qs, k, offset, fams, slugs, env);
  }

  /** `a` and `b` agree on their first `k` rows. */
  predicate SameOut(a: seq<Resolved>, b: seq<Resolved>, k: nat) {
    k <= |a| && k <= |b| && forall j :: 0 <= j < k ==> a[j] == b[j]
  }

  /** Agreeing on a prefix is transitive. */
  lemma SameOutTrans(a: seq<Resolved>, b: seq<Resolved>, c: seq<Resolved>, k: nat, n: nat)
    requires k <= n && SameOut(a, b, k) && SameOut(b, c, n)
    ensures SameOut(a, c, k)
  {
  }

  /** `GenPrefix`, by induction on the rows after the prefix. */
  lemma {:induction false} PrefixSameOut(qs: seq<Request>, k: nat, offset: int, fams: Families, slugs: set<string>, env: Env)
    requires k <= |qs| && Generate(qs, offset, fams, slugs, env).Success?
    ensures Generate(qs[..k], offset, fams, slugs, env).Success?
    ensures SameOut(Generate(qs[..k], offset, fams, slugs, env).value.out, Generate(qs, offset, fams, slugs, env).value.out, k)
    decreases |qs|
  {
    if k < |qs| {
      var prefix := qs[..|qs| - 1];
      GenOutKept(qs, offset, fams, slugs, env);
      PrefixSameOut(prefix, k, offset, fams, slugs, env);
      assert prefix[..k] == qs[..k];
      SameOutTrans(Generate(qs[..k], offset, fams, slugs, env).value.out, Generate(prefix, offset, fams, slugs, env).value.out,
        Generate(qs, offset, fams, slugs, env).value.out, k, |qs| - 1);
    } else {
      assert qs[..k] == qs;
    }
  }

  /** The rows before the last are resolved as the whole pass resolves
      them. */
  lemma GenOutKept(qs: seq<Request>, offset: int, fams: Families, slugs: set<string>, env: Env)
    requires |qs| > 0 && Generate(qs, offset, fams, slugs, env).Success?
    ensures Generate(qs[..|qs| - 1], offset, fams, slugs, env).Success?
    ensures SameOut(Generate(qs[..|qs| - 1], offset, fams, slugs, env).value.out, Generate(qs, offset, fams, slugs, env).value.out, |qs| - 1)
  {
  }

  /** Every prefix of a pass that succeeds succeeds. */
  lemma PrefixSucceeds(qs: seq<Request>, k: nat, offset: int, fams: Families, slugs: set<string>, env: Env)
    requires k <= |qs| && Generate(qs, offset, fams, slugs, env).Success?
    ensures Generate(qs[..k], offset, fams, slugs, env).Success?
  {
    PrefixSameOut(qs, k, offset, fams, slugs, env);
  }

  /** The state row `k` meets. */
  function Before(qs: seq<Request>, k: nat, offset: int, fams: Families, slugs: set<string>, env: Env): (g: GenState)
    requires k <= |qs| && Generate(qs, offset, fams, slugs, env).Success?
    ensures Generate(qs[..k], offset, fams, slugs, env).Success?
    ensures g == Generate(qs[..k], offset, fams, slugs, env).value
    ensures |g.out| == k
  {
    GenPrefix(qs, k, offset, fams, slugs, env);
    Generate(qs[..k], offset, fams, slugs, env).value
  }

  /** The pass over a non-empty list is its last row's step from the pass
      over the rest. */
  lemma GenLast(qs: seq<Request>, offset: int, fams: Families, slugs: set<string>, env: Env)
    requires |qs| > 0 && Generate(qs, offset, fams, slugs, env).Success?
    ensures var gp := Generate(qs[..|qs| - 1], offset, fams, slugs, env);
      && gp.Success?
      && Generate(qs, offset, fams, slugs, env) == GenRow(gp.value, qs[|qs| - 1], offset + |qs| - 1, env)
  {
  }

  /** The state after row `k` is row `k`'s step from the state before it. */
  lemma BeforeNext(qs: seq<Request>, k: nat, offset: int, fams: Families, slugs: set<string>, env: Env)
    requires k < |qs| && Generate(qs, offset, fams, slugs, env).Success?
    ensures GenRow(Before(qs, k, offset, fams, slugs, env), qs[k], offset + k, env) == Success(Before(qs, k + 1, offset, fams, slugs, env))
  {
    GenStep(qs, k, offset, fams, slugs, env);
  }

  /** `BeforeNext`, for the row and the index named apart. */
  lemma BeforeNextAt(qs: seq<Request>, k: nat, offset: int, fams: Families, slugs: set<string>, env: Env, q: Request, index: int)
    requires k < |qs| && Generate(qs, offset, fams, slugs, env).Success?
    requires q == qs[k] && index == offset + k
    ensures GenRow(Before(qs, k, offset, fams, slugs, env), q, index, env) == Success(Before(qs, k + 1, offset, fams, slugs, env))
  {
    BeforeNext(qs, k, offset, fams, slugs, env);
  }

  /** `BeforeNext`, stated on the prefixes. */
  lemma GenStep(qs: seq<Request>, k: nat, offset: int, fams: Families, slugs: set<string>, env: Env)
    requires k < |qs| && Generate(qs, offset, fams, slugs, env).Success?
    ensures Generate(qs[..k], offset, fams, slugs, env).Success?
    ensures GenRow(Generate(qs[..k], offset, fams, slugs, env).value, qs[k], offset + k, env) == Generate(qs[..k + 1], offset, fams, slugs, env)
  {
    var p := qs[..k + 1];
    PrefixSucceeds(qs, k + 1, offset, fams, slugs, env);
    GenLastAt(p, k, offset, fams, slugs, env);
    assert p[..k] == qs[..k];
    assert p[k] == qs[k];
  }

  /** `GenLast` with the last index named. */
  lemma GenLastAt(p: seq<Request>, k: nat, offset: int, fams: Families, slugs: set<string>, env: Env)
    requires |p| == k + 1 && Generate(p, offset, fams, slugs, env).Success?
    ensures Generate(p[..k], offset, fams, slugs, env).Success?
    ensures GenRow(Generate(p[..k], offset, fams, slugs, env).value, p[k], offset + k, env) == Generate(p, offset, fams, slugs, env)
  {
  }

  /** Row `k` is resolved on the state before it. */
  lemma GenAt(qs: seq<Request>, k: nat, offset: int, fams: Families, slugs: set<string>, env: Env)
    requires k < |qs| && Generate(qs, offset, fams, slugs, env).Success?
    ensures Generate(qs, offset, fams, slugs, env).value.out[k] == Before(qs, k + 1, offset, fams, slugs, env).out[k]
  {
    GenPrefix(qs, k + 1, offset, fams, slugs, env);
  }

  // ---------------------------------------------------------------------
  // One row

  /** The family record a row meets, for a name with a record. */
  function RecordOf(g: GenState, name: string): UnfcccScan.FamilyRecord
    requires name in g.families
  {
    g.families[name]
  }

  /** The row's values, and how it updates its family's record. */
  lemma RowValues(g: GenState, q: Request, index: int, env: Env)
    requires GenRow(g, q, index, env).Success?
    ensures var r := GenRow(g, q, index, env).value;
      var res := r.out[|g.out|];
      && res.docId == (if q.docId != "" then q.docId else DocIdTemplate(q.authorType, index + 1))
      && (q.docSlug != "" ==> res.docSlug == q.docSlug)
      && (q.familyId != "" ==> res.familyId == q.familyId)
      && (q.familySlug != "" ==> res.familySlug == q.familySlug)
      && (q.familyId == "" || q.familySlug == "" ==> q.familyName in g.families)
      && (q.familyId == "" && g.families[q.familyName].id.Some? ==> res.familyId == g.families[q.familyName].id.value)
      && (q.familyId == "" && g.families[q.familyName].id.None? ==> res.familyId == FamilyIdTemplate(index))
      && (q.familySlug == "" && g.families[q.familyName].slug.Some? ==> res.familySlug == g.families[q.familyName].slug.value)
  {
  }

  /** What a row records for its family: a generated ID and a drawn slug
      fill the gaps of its record; every other record is untouched. */
  lemma RowRecords(g: GenState, q: Request, index: int, env: Env)
    requires GenRow(g, q, index, env).Success?
    ensures var r := GenRow(g, q, index, env).value;
      var res := r.out[|g.out|];
      && (forall n :: n in g.families && n != q.familyName ==> r.families[n] == g.families[n])
      && (q.familyName in g.families ==>
           && r.families[q.familyName].id
                == (if q.familyId == "" && g.families[q.familyName].id.None? then Some(res.familyId) else g.families[q.familyName].id)
           && r.families[q.familyName].slug
                == (if q.familySlug == "" && g.families[q.familyName].slug.None? then Some(res.familySlug) else g.families[q.familyName].slug))
  {
  }

  /** The three steps of a successful row. */
  lemma RowParts(g: GenState, q: Request, index: int, env: Env) returns (d: Claimed, fid: Assigned, fs: SlugAssigned)
    requires GenRow(g, q, index, env).Success?
    ensures SlugFor(q.docSlug, env.slugify(q.title), g.slugs, env, g.cursor, true) == Success(d)
    ensures FamilyIdFor(q, g.families, index) == Success(fid)
    ensures FamilySlugFor(q, fid.families, d.lookup, env, d.cursor) == Success(fs)
    ensures GenRow(g, q, index, env).value.slugs == fs.lookup
    ensures GenRow(g, q, index, env).value.out[|g.out|] == Resolved(
      if q.docId != "" then q.docId else DocIdTemplate(q.authorType, index + 1), d.slug, fid.value, fs.slug)
  {
    d := SlugFor(q.docSlug, env.slugify(q.title), g.slugs, env, g.cursor, true).value;
    fid := FamilyIdFor(q, g.families, index).value;
    fs := FamilySlugFor(q, fid.families, d.lookup, env, d.cursor).value;
  }

  /** A row that has no document slug draws one from its title, outside
      the slug lookup it meets. */
  lemma RowDocSlug(g: GenState, q: Request, index: int, env: Env)
    requires GenRow(g, q, index, env).Success? && q.docSlug == ""
    ensures var res := GenRow(g, q, index, env).value.out[|g.out|];
      && res.docSlug !in g.slugs
      && res.docSlug in GenRow(g, q, index, env).value.slugs
      && exists i :: res.docSlug == Compose(env.slugify(q.title), Suffix(env.uuid, i))
  {
    var d, fid, fs := RowParts(g, q, index, env);
    DrawnSlug(env.slugify(q.title), g.slugs, env, g.cursor, true);
  }

  /** A row that finds no family slug draws one from the family name,
      outside the slug lookup it meets; the lookup gains it. */
  lemma RowFamilySlug(g: GenState, q: Request, index: int, env: Env)
    requires GenRow(g, q, index, env).Success? && q.familySlug == ""
    requires q.familyName in g.families && g.families[q.familyName].slug.None?
    ensures var res := GenRow(g, q, index, env).value.out[|g.out|];
      && res.familySlug !in g.slugs
      && res.familySlug in GenRow(g, q, index, env).value.slugs
      && exists i :: res.familySlug == Compose(env.slugify(q.familyName), Suffix(env.uuid, i))
  {
    var d, fid, fs := RowParts(g, q, index, env);
    assert fid.families[q.familyName].slug == g.families[q.familyName].slug;
    DrawnSlug(env.slugify(q.familyName), d.lookup, env, d.cursor, true);
  }

  /** A row whose slugs are all given or recorded adds nothing to the
      slug lookup. */
  lemma RowSlugsKept(g: GenState, q: Request, index: int, env: Env)
    requires GenRow(g, q, index, env).Success? && q.docSlug != ""
    requires q.familySlug != "" || g.families[q.familyName].slug.Some?
    ensures GenRow(g, q, index, env).value.slugs == g.slugs
  {
    var d, fid, fs := RowParts(g, q, index, env);
  }


  // ---------------------------------------------------------------------
  // Every family name has a record

  /** The first pass records a family for every name the second pass asks
      about. */
  lemma NamesRecorded(rows: seq<Row>)
    ensures NamesKnown(Asks(rows), UnfcccScan.KnownAfter(UnfcccScan.Lines(rows)).families)
  {
    var ls := UnfcccScan.Lines(rows);
    forall j | 0 <= j < |rows|
      ensures Asks(rows)[j].familyName in UnfcccScan.KnownAfter(ls).families
    {
      assert Asks(rows)[j].familyName == ls[j].familyName;
      UnfcccScan.KnownNames(ls, j);
    }
  }

  /** The `KeyError` of a family without a record never happens: the
      script fails only on the header, on flagged rows, or when slugs run
      out. */
  lemma ProcessCsvFailures(sheet: Sheet, offset: int, env: Env)
    ensures var r := ProcessCsv(sheet, offset, env);
      r.Failure? ==> r.error.SchemaError? || r.error.RowErrors? || r.error.SlugExhausted?
  {
    if UnfcccScan.ReadExistingData(sheet).Success? {
      var k := UnfcccScan.ReadExistingData(sheet).value;
      NamesRecorded(sheet.rows);
      ProcessCsvGenerates(sheet, offset, env);
    }
  }

  /** Past the first pass, the script fails only where the second does. */
  lemma ProcessCsvGenerates(sheet: Sheet, offset: int, env: Env)
    requires UnfcccScan.ReadExistingData(sheet).Success?
    ensures var k := UnfcccScan.ReadExistingData(sheet).value;
      var g := Generate(Asks(sheet.rows), offset, k.families, k.slugs, env);
      && k == UnfcccScan.KnownAfter(UnfcccScan.Lines(sheet.rows))
      && (ProcessCsv(sheet, offset, env).Failure? ==> g.Failure? && ProcessCsv(sheet, offset, env).error == g.error)
  {
  }


  // ---------------------------------------------------------------------
  // Document IDs

  /** Row `k`'s document ID: its own, else the template numbered with its
      1-based position after the offset. */
  lemma DocIdAt(qs: seq<Request>, k: nat, offset: int, fams: Families, slugs: set<string>, env: Env)
    requires k < |qs| && Generate(qs, offset, fams, slugs, env).Success?
    ensures Generate(qs, offset, fams, slugs, env).value.out[k].docId
      == if qs[k].docId != "" then qs[k].docId else DocIdTemplate(qs[k].authorType, offset + k + 1)
  {
    GenAt(qs, k, offset, fams, slugs, env);
    BeforeNext(qs, k, offset, fams, slugs, env);
    RowValues(Before(qs, k, offset, fams, slugs, env), qs[k], offset + k, env);
  }

  /** A number written out has no dot. */
  lemma NoDot(n: int)
    ensures '.' !in IntToString(n)
  {
    var r := IntToString(n);
    forall i | 0 <= i < |r|
      ensures r[i] != '.'
    {
      assert IsDigit(r[i]) || r[i] == '-';
    }
  }

  /** In `x.n.0`, the part `n` without a dot is fixed by the whole. */
  lemma LastNumber(x: string, y: string, m: string, n: string)
    requires '.' !in m && '.' !in n
    requires x + "." + m + ".0" == y + "." + n + ".0"
    ensures m == n
  {
    var s := x + "." + m;
    var t := y + "." + n;
    assert s == (x + "." + m + ".0")[..|s|];
    assert t == (y + "." + n + ".0")[..|t|];
    assert |s| == |t|;
    // The dot before each part is a dot of the other, so neither part is
    // longer than the other.
    assert s[|x|] == '.' == t[|x|];
    assert t[|y|] == '.' == s[|y|];
    assert m == s[|s| - |m|..];
    assert n == t[|t| - |n|..];
  }

  /** Two generated document IDs are equal only for the same number. */
  lemma DocIdTemplateNumbers(a: string, m: int, b: string, n: int)
    requires DocIdTemplate(a, m) == DocIdTemplate(b, n)
    ensures m == n
  {
    NoDot(m);
    NoDot(n);
    assert DocIdTemplate(a, m) == ("CCLW." + a) + "." + IntToString(m) + ".0";
    assert DocIdTemplate(b, n) == ("CCLW." + b) + "." + IntToString(n) + ".0";
    LastNumber("CCLW." + a, "CCLW." + b, IntToString(m), IntToString(n));
    IntToStringRoundTrip(m);
    IntToStringRoundTrip(n);
  }

  /** Two rows without a document ID are given different ones. */
  lemma GeneratedDocIdsDiffer(qs: seq<Request>, i: nat, j: nat, offset: int, fams: Families, slugs: set<string>, env: Env)
    requires i < j < |qs| && Generate(qs, offset, fams, slugs, env).Success?
    requires qs[i].docId == "" && qs[j].docId == ""
    ensures Generate(qs, offset, fams, slugs, env).value.out[i].docId != Generate(qs, offset, fams, slugs, env).value.out[j].docId
  {
    DocIdAt(qs, i, offset, fams, slugs, env);
    DocIdAt(qs, j, offset, fams, slugs, env);
    if DocIdTemplate(qs[i].authorType, offset + i + 1) == DocIdTemplate(qs[j].authorType, offset + j + 1) {
      DocIdTemplateNumbers(qs[i].authorType, offset + i + 1, qs[j].authorType, offset + j + 1);
    }
  }

  /** Two generated family IDs are equal only for the same index. */
  lemma FamilyIdTemplateNumbers(m: int, n: int)
    requires FamilyIdTemplate(m) == FamilyIdTemplate(n)
    ensures m == n
  {
    NoDot(m);
    NoDot(n);
    assert FamilyIdTemplate(m) == "UNFCCC.family" + "." + IntToString(m) + ".0";
    assert FamilyIdTemplate(n) == "UNFCCC.family" + "." + IntToString(n) + ".0";
    LastNumber("UNFCCC.family", "UNFCCC.family", IntToString(m), IntToString(n));
    IntToStringRoundTrip(m);
    IntToStringRoundTrip(n);
  }


  // ---------------------------------------------------------------------
  // Family IDs and slugs: generated once per family, then reused

  /** Whether a row of family `name` leaves its family ID (with `slug`, its
      family slug) to the family's record. */
  predicate Leaves(q: Request, name: string, slug: bool) {
    q.familyName == name && (if slug then q.familySlug else q.familyId) == ""
  }

  /** The first of the rows before `k` that leaves family `name`'s ID (or
      slug) to the record. */
  function FirstLeaving(qs: seq<Request>, name: string, k: nat, slug: bool): (r: Option<nat>)
    requires k <= |qs|
    ensures r.Some? ==> r.value < k && Leaves(qs[r.value], name, slug)
    ensures r.Some? ==> forall j :: 0 <= j < r.value ==> !Leaves(qs[j], name, slug)
    ensures r.None? <==> forall j :: 0 <= j < k ==> !Leaves(qs[j], name, slug)
  {
    if k == 0 then None
    else match FirstLeaving(qs, name, k - 1, slug)
      case Some(j) => Some(j)
      case None => if Leaves(qs[k - 1], name, slug) then Some(k - 1) else None
  }

  /** Family `name`'s ID in the record once the rows before `k` are done:
      the one the first pass found, else the one generated from the index
      of the first row that needed it, else none yet. */
  function IdRecorded(qs: seq<Request>, k: nat, offset: int, found: Option<string>, name: string): Option<string>
    requires k <= |qs|
  {
    if found.Some? then found
    else match FirstLeaving(qs, name, k, false)
      case Some(j) => Some(FamilyIdTemplate(offset + j))
      case None => None
  }

  /** A row of a successful pass that leaves its family ID or slug to the
      record names a family with a record. */
  lemma NameRecorded(qs: seq<Request>, k: nat, offset: int, fams: Families, slugs: set<string>, env: Env)
    requires k < |qs| && Generate(qs, offset, fams, slugs, env).Success?
    requires qs[k].familyId == "" || qs[k].familySlug == ""
    ensures qs[k].familyName in fams
  {
    BeforeNext(qs, k, offset, fams, slugs, env);
    RowValues(Before(qs, k, offset, fams, slugs, env), qs[k], offset + k, env);
  }

  /** Row `k` of the pass, stated on the states before and after it, for
      family `name`: the family ID the row resolves if it leaves it to the
      record, and the record's ID afterwards. */
  lemma RowIdAt(qs: seq<Request>, k: nat, offset: int, fams: Families, slugs: set<string>, env: Env, name: string)
    requires k < |qs| && Generate(qs, offset, fams, slugs, env).Success? && name in fams
    ensures var g := Before(qs, k, offset, fams, slugs, env);
      var h := Before(qs, k + 1, offset, fams, slugs, env);
      var res := Generate(qs, offset, fams, slugs, env).value.out[k];
      && name in g.families && name in h.families
      && h.families[name].id
           == (if Leaves(qs[k], name, false) && g.families[name].id.None? then Some(res.familyId) else g.families[name].id)
      && (Leaves(qs[k], name, false) ==> res.familyId == match g.families[name].id
            case Some(v) => v
            case None => FamilyIdTemplate(offset + k))
  {
    var g := Before(qs, k, offset, fams, slugs, env);
    GenAt(qs, k, offset, fams, slugs, env);
    BeforeNext(qs, k, offset, fams, slugs, env);
    RowValues(g, qs[k], offset + k, env);
    RowRecords(g, qs[k], offset + k, env);
  }

  /** One more row: it records a generated ID exactly when it leaves its
      ID to a record that has none, and touches no other family's ID. */
  lemma IdStep(qs: seq<Request>, k: nat, offset: int, found: Option<string>, name: string, before: Option<string>, after: Option<string>, id: string)
    requires k < |qs| && before == IdRecorded(qs, k, offset, found, name)
    requires after == if Leaves(qs[k], name, false) && before.None? then Some(id) else before
    requires Leaves(qs[k], name, false) ==> id == match before
      case Some(v) => v
      case None => FamilyIdTemplate(offset + k)
    ensures after == IdRecorded(qs, k + 1, offset, found, name)
  {
    FirstLeavingNext(qs, name, k, false);
  }

  /** The family records along the pass hold the IDs `IdRecorded` says. */
  lemma {:induction false} FamilyIdState(qs: seq<Request>, k: nat, offset: int, fams: Families, slugs: set<string>, env: Env, name: string)
    requires k <= |qs| && Generate(qs, offset, fams, slugs, env).Success? && name in fams
    ensures name in Before(qs, k, offset, fams, slugs, env).families
    ensures Before(qs, k, offset, fams, slugs, env).families[name].id == IdRecorded(qs, k, offset, fams[name].id, name)
  {
    if k == 0 {
      assert qs[..0] == [];
    } else {
      FamilyIdState(qs, k - 1, offset, fams, slugs, env, name);
      RowIdAt(qs, k - 1, offset, fams, slugs, env, name);
      IdStep(qs, k - 1, offset, fams[name].id, name,
        Before(qs, k - 1, offset, fams, slugs, env).families[name].id,
        Before(qs, k, offset, fams, slugs, env).families[name].id,
        Generate(qs, offset, fams, slugs, env).value.out[k - 1].familyId);
    }
  }

  /** A family's ID: the one found by the first pass, else the one
      generated from the index of the first row that needed it. */
  function FamilyIdOf(found: Option<string>, offset: int, first: nat): string {
    match found
    case Some(v) => v
    case None => FamilyIdTemplate(offset + first)
  }

  /** Row `k`'s family ID when it has none: its family's recorded one, else
      the one generated from the index of the first row of the family
      that had none. */
  lemma FamilyIdAt(qs: seq<Request>, k: nat, offset: int, fams: Families, slugs: set<string>, env: Env)
    requires k < |qs| && Generate(qs, offset, fams, slugs, env).Success? && qs[k].familyId == ""
    ensures qs[k].familyName in fams && FirstLeaving(qs, qs[k].familyName, k + 1, false).Some?
    ensures Generate(qs, offset, fams, slugs, env).value.out[k].familyId
      == FamilyIdOf(fams[qs[k].familyName].id, offset, FirstLeaving(qs, qs[k].familyName, k + 1, false).value)
  {
    var name := qs[k].familyName;
    NameRecorded(qs, k, offset, fams, slugs, env);
    RowIdAt(qs, k, offset, fams, slugs, env, name);
    FamilyIdState(qs, k, offset, fams, slugs, env, name);
    IdResolved(qs, k, offset, fams[name].id, name,
      Before(qs, k, offset, fams, slugs, env).families[name].id, Generate(qs, offset, fams, slugs, env).value.out[k].familyId);
  }

  /** The ID a leaving row resolves from the record it meets is its
      family's ID. */
  lemma IdResolved(qs: seq<Request>, k: nat, offset: int, found: Option<string>, name: string, recorded: Option<string>, id: string)
    requires k < |qs| && Leaves(qs[k], name, false)
    requires recorded == IdRecorded(qs, k, offset, found, name)
    requires id == match recorded
      case Some(v) => v
      case None => FamilyIdTemplate(offset + k)
    ensures FirstLeaving(qs, name, k + 1, false).Some?
    ensures id == FamilyIdOf(found, offset, FirstLeaving(qs, name, k + 1, false).value)
  {
    FirstLeavingNext(qs, name, k, false);
  }

  /** One more row: the first leaving row is unchanged if there was one,
      else it is the new row if that row leaves. */
  lemma FirstLeavingNext(qs: seq<Request>, name: string, k: nat, slug: bool)
    requires k < |qs|
    ensures FirstLeaving(qs, name, k + 1, slug)
      == if FirstLeaving(qs, name, k, slug).Some? then FirstLeaving(qs, name, k, slug)
         else if Leaves(qs[k], name, slug) then Some(k) else None
  {
  }

  /** Rows of one family that have no family ID get the same one. */
  lemma FamilyIdShared(qs: seq<Request>, i: nat, j: nat, offset: int, fams: Families, slugs: set<string>, env: Env)
    requires i < |qs| && j < |qs| && Generate(qs, offset, fams, slugs, env).Success?
    requires qs[i].familyId == "" && qs[j].familyId == "" && qs[i].familyName == qs[j].familyName
    ensures var out := Generate(qs, offset, fams, slugs, env).value.out;
      out[i].familyId == out[j].familyId
  {
    FamilyIdAt(qs, i, offset, fams, slugs, env);
    FamilyIdAt(qs, j, offset, fams, slugs, env);
    var name := qs[i].familyName;
    FirstLeavingStable(qs, name, i + 1, j + 1, false);
  }

  /** Once found, the first leaving row stays the first. */
  lemma {:induction false} FirstLeavingStable(qs: seq<Request>, name: string, a: nat, b: nat, slug: bool)
    requires a <= |qs| && b <= |qs| && FirstLeaving(qs, name, a, slug).Some? && FirstLeaving(qs, name, b, slug).Some?
    ensures FirstLeaving(qs, name, a, slug) == FirstLeaving(qs, name, b, slug)
  {
    var x := FirstLeaving(qs, name, a, slug).value;
    var y := FirstLeaving(qs, name, b, slug).value;
    assert !(x < y) && !(y < x);
  }

  /** Two families without a recorded ID never get the same generated one. */
  lemma FamilyIdsDiffer(qs: seq<Request>, i: nat, j: nat, offset: int, fams: Families, slugs: set<string>, env: Env)
    requires i < |qs| && j < |qs| && Generate(qs, offset, fams, slugs, env).Success?
    requires qs[i].familyId == "" && qs[j].familyId == "" && qs[i].familyName != qs[j].familyName
    requires qs[i].familyName in fams && fams[qs[i].familyName].id.None?
    requires qs[j].familyName in fams && fams[qs[j].familyName].id.None?
    ensures var out := Generate(qs, offset, fams, slugs, env).value.out;
      out[i].familyId != out[j].familyId
  {
    FamilyIdAt(qs, i, offset, fams, slugs, env);
    FamilyIdAt(qs, j, offset, fams, slugs, env);
    FirstsDiffer(qs, qs[i].familyName, qs[j].familyName, i + 1, j + 1, false);
    GeneratedIdsDiffer(offset, FirstLeaving(qs, qs[i].familyName, i + 1, false).value, FirstLeaving(qs, qs[j].familyName, j + 1, false).value);
  }

  /** Different families have different first leaving rows. */
  lemma FirstsDiffer(qs: seq<Request>, a: string, b: string, i: nat, j: nat, slug: bool)
    requires i <= |qs| && j <= |qs| && a != b
    requires FirstLeaving(qs, a, i, slug).Some? && FirstLeaving(qs, b, j, slug).Some?
    ensures FirstLeaving(qs, a, i, slug).value != FirstLeaving(qs, b, j, slug).value
  {
  }

  /** Generated family IDs of different indices differ. */
  lemma GeneratedIdsDiffer(offset: int, x: nat, y: nat)
    requires x != y
    ensures FamilyIdOf(None, offset, x) != FamilyIdOf(None, offset, y)
  {
    if FamilyIdTemplate(offset + x) == FamilyIdTemplate(offset + y) {
      FamilyIdTemplateNumbers(offset + x, offset + y);
    }
  }


  /** Family `name`'s slug in the record once the rows before `k` are
      done: the one the first pass found, else the one the first row that
      needed it resolved, else none yet. */
  function SlugRecorded(qs: seq<Request>, k: nat, found: Option<string>, name: string, out: seq<Resolved>): Option<string>
    requires k <= |qs| <= |out|
  {
    if found.Some? then found
    else match FirstLeaving(qs, name, k, true)
      case Some(j) => Some(out[j].familySlug)
      case None => None
  }

  /** A family's slug: the one found by the first pass, else the one the
      first row that needed it resolved. */
  function FamilySlugOf(found: Option<string>, out: seq<Resolved>, first: nat): string
    requires first < |out|
  {
    match found
    case Some(v) => v
    case None => out[first].familySlug
  }

  /** Row `k` of the pass, stated on the states before and after it, for
      family `name`: the family slug the row resolves if it leaves it to
      the record, and the record's slug afterwards. */
  lemma RowSlugAt(qs: seq<Request>, k: nat, offset: int, fams: Families, slugs: set<string>, env: Env, name: string)
    requires k < |qs| && Generate(qs, offset, fams, slugs, env).Success? && name in fams
    ensures var g := Before(qs, k, offset, fams, slugs, env);
      var h := Before(qs, k + 1, offset, fams, slugs, env);
      var res := Generate(qs, offset, fams, slugs, env).value.out[k];
      && name in g.families && name in h.families
      && h.families[name].slug
           == (if Leaves(qs[k], name, true) && g.families[name].slug.None? then Some(res.familySlug) else g.families[name].slug)
      && (Leaves(qs[k], name, true) && g.families[name].slug.Some? ==> res.familySlug == g.families[name].slug.value)
      && (Leaves(qs[k], name, true) && g.families[name].slug.None? ==>
            && res.familySlug !in g.slugs && res.familySlug in h.slugs
            && exists i :: res.familySlug == Compose(env.slugify(name), Suffix(env.uuid, i)))
  {
    BeforeFamilies(qs, k, offset, fams, slugs, env, name);
    RowSlugBefore(qs, k, offset, fams, slugs, env, name);
    GenAt(qs, k, offset, fams, slugs, env);
  }

  /** `RowSlugOf` for row `k`, between the states before and after it. */
  lemma RowSlugBefore(qs: seq<Request>, k: nat, offset: int, fams: Families, slugs: set<string>, env: Env, name: string)
    requires k < |qs| && Generate(qs, offset, fams, slugs, env).Success?
    requires name in Before(qs, k, offset, fams, slugs, env).families
    ensures var g := Before(qs, k, offset, fams, slugs, env);
      var h := Before(qs, k + 1, offset, fams, slugs, env);
      && name in h.families
      && h.families[name].slug
           == (if Leaves(qs[k], name, true) && g.families[name].slug.None? then Some(h.out[k].familySlug) else g.families[name].slug)
      && (Leaves(qs[k], name, true) && g.families[name].slug.Some? ==> h.out[k].familySlug == g.families[name].slug.value)
      && (Leaves(qs[k], name, true) && g.families[name].slug.None? ==>
            && h.out[k].familySlug !in g.slugs && h.out[k].familySlug in h.slugs
            && exists i :: h.out[k].familySlug == Compose(env.slugify(name), Suffix(env.uuid, i)))
  {
    var q, index := qs[k], offset + k;
    BeforeNextAt(qs, k, offset, fams, slugs, env, q, index);
    RowSlugOf(Before(qs, k, offset, fams, slugs, env), q, index, env, Before(qs, k + 1, offset, fams, slugs, env), name);
  }

  /** Every name with a record before the pass still has one before row
      `k`. */
  lemma BeforeFamilies(qs: seq<Request>, k: nat, offset: int, fams: Families, slugs: set<string>, env: Env, name: string)
    requires k <= |qs| && Generate(qs, offset, fams, slugs, env).Success? && name in fams
    ensures name in Before(qs, k, offset, fams, slugs, env).families
  {
  }

  /** `RowSlugAt` for one row, from the state row `k` meets to the state
      it leaves. */
  lemma RowSlugOf(g: GenState, q: Request, index: int, env: Env, h: GenState, name: string)
    requires GenRow(g, q, index, env) == Success(h) && name in g.families
    ensures |h.out| == |g.out| + 1 && name in h.families
    ensures h.families[name].slug
      == (if Leaves(q, name, true) && g.families[name].slug.None? then Some(h.out[|g.out|].familySlug) else g.families[name].slug)
    ensures Leaves(q, name, true) && g.families[name].slug.Some? ==> h.out[|g.out|].familySlug == g.families[name].slug.value
    ensures Leaves(q, name, true) && g.families[name].slug.None? ==>
      && h.out[|g.out|].familySlug !in g.slugs && h.out[|g.out|].familySlug in h.slugs
      && exists i :: h.out[|g.out|].familySlug == Compose(env.slugify(name), Suffix(env.uuid, i))
  {
    RowValues(g, q, index, env);
    RowRecords(g, q, index, env);
    if Leaves(q, name, true) && g.families[name].slug.None? {
      RowFamilySlug(g, q, index, env);
    }
  }


  /** One more row: it records its resolved slug exactly when it leaves
      its slug to a record that has none. */
  lemma SlugStep(qs: seq<Request>, k: nat, found: Option<string>, name: string, out: seq<Resolved>, before: Option<string>, after: Option<string>)
    requires k < |qs| <= |out| && before == SlugRecorded(qs, k, found, name, out)
    requires after == if Leaves(qs[k], name, true) && before.None? then Some(out[k].familySlug) else before
    ensures after == SlugRecorded(qs, k + 1, found, name, out)
  {
    FirstLeavingNext(qs, name, k, true);
  }

  /** The family records along the pass hold the slugs `SlugRecorded`
      says. */
  lemma {:induction false} FamilySlugState(qs: seq<Request>, k: nat, offset: int, fams: Families, slugs: set<string>, env: Env, name: string)
    requires k <= |qs| && Generate(qs, offset, fams, slugs, env).Success? && name in fams
    ensures name in Before(qs, k, offset, fams, slugs, env).families
    ensures Before(qs, k, offset, fams, slugs, env).families[name].slug
      == SlugRecorded(qs, k, fams[name].slug, name, Generate(qs, offset, fams, slugs, env).value.out)
  {
    if k == 0 {
      assert qs[..0] == [];
    } else {
      var j := k - 1;
      FamilySlugState(qs, j, offset, fams, slugs, env, name);
      RowSlugAt(qs, j, offset, fams, slugs, env, name);
      SlugStep(qs, j, fams[name].slug, name, Generate(qs, offset, fams, slugs, env).value.out,
        Before(qs, j, offset, fams, slugs, env).families[name].slug,
        Before(qs, j + 1, offset, fams, slugs, env).families[name].slug);
    }
  }

  /** The slug a leaving row resolves from the record it meets is its
      family's slug. */
  lemma SlugResolved(qs: seq<Request>, k: nat, found: Option<string>, name: string, out: seq<Resolved>, recorded: Option<string>)
    requires k < |qs| <= |out| && Leaves(qs[k], name, true)
    requires recorded == SlugRecorded(qs, k, found, name, out)
    requires recorded.Some? ==> out[k].familySlug == recorded.value
    ensures FirstLeaving(qs, name, k + 1, true).Some?
    ensures out[k].familySlug == FamilySlugOf(found, out, FirstLeaving(qs, name, k + 1, true).value)
  {
    FirstLeavingNext(qs, name, k, true);
  }

  /** Row `k`'s family slug when it has none: its family's recorded one,
      else the one the first row of the family without a slug drew. */
  lemma FamilySlugAt(qs: seq<Request>, k: nat, offset: int, fams: Families, slugs: set<string>, env: Env)
    requires k < |qs| && Generate(qs, offset, fams, slugs, env).Success? && qs[k].familySlug == ""
    ensures qs[k].familyName in fams && FirstLeaving(qs, qs[k].familyName, k + 1, true).Some?
    ensures var out := Generate(qs, offset, fams, slugs, env).value.out;
      out[k].familySlug == FamilySlugOf(fams[qs[k].familyName].slug, out, FirstLeaving(qs, qs[k].familyName, k + 1, true).value)
  {
    var name := qs[k].familyName;
    NameRecorded(qs, k, offset, fams, slugs, env);
    RowSlugAt(qs, k, offset, fams, slugs, env, name);
    FamilySlugState(qs, k, offset, fams, slugs, env, name);
    SlugResolved(qs, k, fams[name].slug, name, Generate(qs, offset, fams, slugs, env).value.out,
      Before(qs, k, offset, fams, slugs, env).families[name].slug);
  }

  /** Rows of one family that have no family slug get the same one. */
  lemma FamilySlugShared(qs: seq<Request>, i: nat, j: nat, offset: int, fams: Families, slugs: set<string>, env: Env)
    requires i < |qs| && j < |qs| && Generate(qs, offset, fams, slugs, env).Success?
    requires qs[i].familySlug == "" && qs[j].familySlug == "" && qs[i].familyName == qs[j].familyName
    ensures var out := Generate(qs, offset, fams, slugs, env).value.out;
      out[i].familySlug == out[j].familySlug
  {
    FamilySlugAt(qs, i, offset, fams, slugs, env);
    FamilySlugAt(qs, j, offset, fams, slugs, env);
    FirstLeavingStable(qs, qs[i].familyName, i + 1, j + 1, true);
  }


  /** The family slug the first row of a family without one draws is new:
      it is outside the slugs the pass started from, and built from the
      family name. */
  lemma FamilySlugDrawn(qs: seq<Request>, k: nat, offset: int, fams: Families, slugs: set<string>, env: Env)
    requires k < |qs| && Generate(qs, offset, fams, slugs, env).Success?
    requires qs[k].familySlug == "" && qs[k].familyName in fams && fams[qs[k].familyName].slug.None?
    requires FirstLeaving(qs, qs[k].familyName, k, true).None?
    ensures var s := Generate(qs, offset, fams, slugs, env).value.out[k].familySlug;
      && s !in slugs
      && exists i :: s == Compose(env.slugify(qs[k].familyName), Suffix(env.uuid, i))
  {
    var name := qs[k].familyName;
    FamilySlugState(qs, k, offset, fams, slugs, env, name);
    RowSlugAt(qs, k, offset, fams, slugs, env, name);
    SlugsGrow(qs, k, k, offset, fams, slugs, env);
  }

  /** Row `k`'s document slug: its own, else one drawn from its title
      outside the slug lookup it meets; the lookup gains it. */
  lemma DocSlugAt(qs: seq<Request>, k: nat, offset: int, fams: Families, slugs: set<string>, env: Env)
    requires k < |qs| && Generate(qs, offset, fams, slugs, env).Success?
    ensures var s := Generate(qs, offset, fams, slugs, env).value.out[k].docSlug;
      && (qs[k].docSlug != "" ==> s == qs[k].docSlug)
      && (qs[k].docSlug == "" ==>
            && s !in Before(qs, k, offset, fams, slugs, env).slugs
            && s in Before(qs, k + 1, offset, fams, slugs, env).slugs
            && exists i :: s == Compose(env.slugify(qs[k].title), Suffix(env.uuid, i)))
  {
    var g := Before(qs, k, offset, fams, slugs, env);
    GenAt(qs, k, offset, fams, slugs, env);
    BeforeNext(qs, k, offset, fams, slugs, env);
    RowValues(g, qs[k], offset + k, env);
    if qs[k].docSlug == "" {
      RowDocSlug(g, qs[k], offset + k, env);
    }
  }

  /** The slug lookup only grows along the pass, from the first pass's
      slugs on. */
  lemma {:induction false} SlugsGrow(qs: seq<Request>, a: nat, b: nat, offset: int, fams: Families, slugs: set<string>, env: Env)
    requires a <= b <= |qs| && Generate(qs, offset, fams, slugs, env).Success?
    ensures slugs <= Before(qs, a, offset, fams, slugs, env).slugs <= Before(qs, b, offset, fams, slugs, env).slugs
    decreases b - a
  {
    if a < b {
      SlugsGrow(qs, a + 1, b, offset, fams, slugs, env);
      SlugsGrowOne(qs, a, offset, fams, slugs, env);
    }
  }

  /** One row only adds slugs to the lookup. */
  lemma SlugsGrowOne(qs: seq<Request>, k: nat, offset: int, fams: Families, slugs: set<string>, env: Env)
    requires k < |qs| && Generate(qs, offset, fams, slugs, env).Success?
    ensures Before(qs, k, offset, fams, slugs, env).slugs <= Before(qs, k + 1, offset, fams, slugs, env).slugs
  {
    BeforeNext(qs, k, offset, fams, slugs, env);
  }

  /** Every document slug a row brings is among the starting slugs, and no
      two rows bring the same one. */
  predicate GivenSlugsClaimed(qs: seq<Request>, slugs: set<string>) {
    && (forall m :: 0 <= m < |qs| && qs[m].docSlug != "" ==> qs[m].docSlug in slugs)
    && (forall a, b :: 0 <= a < b < |qs| && qs[a].docSlug != "" && qs[b].docSlug != "" ==> qs[a].docSlug != qs[b].docSlug)
  }

  /** No two rows end up with the same document slug. */
  lemma DocSlugsDistinct(qs: seq<Request>, i: nat, j: nat, offset: int, fams: Families, slugs: set<string>, env: Env)
    requires i < j < |qs| && Generate(qs, offset, fams, slugs, env).Success?
    requires GivenSlugsClaimed(qs, slugs)
    ensures var out := Generate(qs, offset, fams, slugs, env).value.out;
      out[i].docSlug != out[j].docSlug
  {
    DocSlugAt(qs, i, offset, fams, slugs, env);
    DocSlugAt(qs, j, offset, fams, slugs, env);
    if qs[i].docSlug == "" {
      SlugsGrow(qs, i + 1, j, offset, fams, slugs, env);
    } else if qs[j].docSlug == "" {
      SlugsGrow(qs, 0, j, offset, fams, slugs, env);
    }
  }

  /** A sheet the first pass accepts has distinct document slugs, all
      collected. */
  lemma GivenClaimedByScan(sheet: Sheet)
    requires UnfcccScan.ReadExistingData(sheet).Success?
    ensures GivenSlugsClaimed(Asks(sheet.rows), UnfcccScan.ReadExistingData(sheet).value.slugs)
  {
    GivenCollected(sheet);
    GivenDiffer(sheet);
  }

  /** Every document slug a row brings is among the slugs the first pass
      collects. */
  lemma GivenCollected(sheet: Sheet)
    requires UnfcccScan.ReadExistingData(sheet).Success?
    ensures var qs := Asks(sheet.rows);
      forall m :: 0 <= m < |qs| && qs[m].docSlug != "" ==> qs[m].docSlug in UnfcccScan.ReadExistingData(sheet).value.slugs
  {
    var qs := Asks(sheet.rows);
    var ls := UnfcccScan.Lines(sheet.rows);
    forall m | 0 <= m < |qs| && qs[m].docSlug != "" ensures qs[m].docSlug in UnfcccScan.ReadExistingData(sheet).value.slugs {
      assert ls[m].docSlug == qs[m].docSlug;
      UnfcccScan.SlugKnown(ls, m, qs[m].docSlug);
    }
  }

  /** The document slugs the rows of an accepted sheet bring differ. */
  lemma GivenDiffer(sheet: Sheet)
    requires UnfcccScan.ReadExistingData(sheet).Success?
    ensures var qs := Asks(sheet.rows);
      forall a, b :: 0 <= a < b < |qs| && qs[a].docSlug != "" && qs[b].docSlug != "" ==> qs[a].docSlug != qs[b].docSlug
  {
    var qs := Asks(sheet.rows);
    var ls := UnfcccScan.Lines(sheet.rows);
    forall a, b | 0 <= a < b < |qs| && qs[a].docSlug != "" && qs[b].docSlug != "" ensures qs[a].docSlug != qs[b].docSlug {
      assert ls[a].docSlug == qs[a].docSlug && ls[b].docSlug == qs[b].docSlug;
      UnfcccScan.CleanDocSlugsDiffer(sheet.rows, a, b);
    }
  }

  /** Every document slug of the output is unique. */
  lemma ProcessCsvSlugsDistinct(sheet: Sheet, offset: int, env: Env, i: nat, j: nat)
    requires ProcessCsv(sheet, offset, env).Success? && i < j < |sheet.rows|
    ensures ProcessCsv(sheet, offset, env).value[i][CprDocumentSlug] != ProcessCsv(sheet, offset, env).value[j][CprDocumentSlug]
  {
    GivenClaimedByScan(sheet);
    var k := UnfcccScan.ReadExistingData(sheet).value;
    DocSlugsDistinct(Asks(sheet.rows), i, j, offset, k.families, k.slugs, env);
  }


  /** An output row: the input row with its document ID (its own, else
      generated from the author type and its 1-based number after the
      offset), the status `PUBLISHED`, and every other column unchanged. */
  lemma ProcessCsvRow(sheet: Sheet, offset: int, env: Env, k: nat)
    requires ProcessCsv(sheet, offset, env).Success? && k < |sheet.rows|
    ensures var row := sheet.rows[k];
      var out := ProcessCsv(sheet, offset, env).value[k];
      && out[CprDocumentId]
           == (if Cell(row, CprDocumentId) != "" then Cell(row, CprDocumentId)
               else DocIdTemplate(Lower(Field(row, "Author Type")), offset + k + 1))
      && out[CprDocumentStatus] == "PUBLISHED"
      && forall c :: c in row && c !in {CprDocumentId, CprDocumentSlug, CprDocumentStatus, CprFamilyId, CprFamilySlug} ==> out[c] == row[c]
  {
    var kn := UnfcccScan.ReadExistingData(sheet).value;
    DocIdAt(Asks(sheet.rows), k, offset, kn.families, kn.slugs, env);
  }
}
