/** The second pass of main.py (`_process_csv`): fill in every row's CPR
    document ID, document slug, family ID, family slug and collection ID,
    keeping the values the row already has, reusing family and collection
    IDs within an action, and drawing new slugs with `_generate_slug`. */
module CclwGenerate {
  import opened Wrappers
  import opened Strings
  import opened Table
  import opened Slugs
  import opened Registry
  import CclwScan

  /** What the pass reads from a row: stripped cells, lower-cased where
      the script lower-cases; `docNo` is `row["Document ID"].strip() or "0"`. */
  datatype Request = Request(
    category: string, action: string, docNo: string, title: string,
    familyName: string, collectionName: string,
    docId: string, docSlug: string, familyId: string, familySlug: string, collectionId: string)

  function Ask(row: Row): Request {
    Request(
      Lower(Cell(row, "Category")), Cell(row, "ID"),
      if Cell(row, "Document ID") != "" then Cell(row, "Document ID") else "0",
      Cell(row, "Document title"), Lower(Cell(row, "Family name")), Lower(Cell(row, "Collection name")),
      Cell(row, CprDocumentId), Cell(row, CprDocumentSlug), Cell(row, CprFamilyId),
      Cell(row, CprFamilySlug), Cell(row, CprCollectionId))
  }

  /** The five values written into a row, and whether the row drew a new
      family slug. */
  datatype Resolved = Resolved(
    docId: string, docSlug: string, familyId: string, familySlug: string, collectionId: string,
    familyDrawn: bool)

  /** Python's `a or b` for a string and a lookup that may miss. */
  function Or(a: string, b: Option<string>): string {
    if a != "" then a else if b.Some? then b.value else ""
  }

  /** `f"CCLW.{category}.{action_id}.{doc_id}"`. */
  function DocIdTemplate(q: Request): string {
    "CCLW." + q.category + "." + q.action + "." + q.docNo
  }

  /** The CPR Document ID: the row's own, else the template. */
  function DocIdFor(q: Request): string {
    if q.docId != "" then q.docId else DocIdTemplate(q)
  }

  /** `f"CCLW.family.{action_id}.{family_count}"`. */
  function FamilyIdTemplate(action: string, count: nat): string {
    "CCLW.family." + action + "." + NatToString(count)
  }

  /** `f"CCLW.collection.{action_id}.{len(action_collections)}"`. */
  function CollectionIdTemplate(action: string, count: nat): string {
    "CCLW.collection." + action + "." + NatToString(count)
  }

  /** The CPR Family ID: the row's own, else the one recorded for the
      row's (action, family name), else a new one numbered by how many
      family names the action has recorded. Never empty. */
  function FamilyIdFor(q: Request, ids: Registry): (r: string)
    ensures r != ""
  {
    var v := Or(q.familyId, Stored(ids, q.action, q.familyName));
    if v != "" then v else FamilyIdTemplate(q.action, Count(ids, q.action))
  }

  /** A collection name that is empty or `n/a` gives no collection. */
  predicate HasCollection(q: Request) {
    q.collectionName != "" && q.collectionName != "n/a"
  }

  /** The CPR Collection ID, numbered like family IDs. */
  function CollectionFor(q: Request, colls: Registry): (r: string)
    ensures r != ""
  {
    if !HasCollection(q) then "N/A"
    else
      var v := Or(q.collectionId, Stored(colls, q.action, q.collectionName));
      if v != "" then v else CollectionIdTemplate(q.action, Count(colls, q.action))
  }

  /** The row draws a new family slug: it has none and its (action,
      family name) has none recorded. */
  predicate FamilyDrawn(q: Request, familySlugs: Registry) {
    Or(q.familySlug, Stored(familySlugs, q.action, q.familyName)) == ""
  }

  /** Everything the pass carries from row to row: the slug lookup, the
      family-ID, family-slug and collection lookups, the next `uuid4()`
      draw, and the rows resolved so far. */
  datatype GenState = GenState(
    slugs: set<string>, ids: Registry, familySlugs: Registry, collections: Registry,
    cursor: nat, out: seq<Resolved>)

  /** One row. `register` says whether `_generate_slug` adds the slugs it
      hands out to the lookup (main.py's does not). */
  function GenRow(g: GenState, q: Request, env: Env, register: bool): (r: Result<GenState, Failure>)
    ensures r.Failure? ==> r.error.SlugExhausted?
    ensures r.Success? ==>
      && |r.value.out| == |g.out| + 1
      && (forall j :: 0 <= j < |g.out| ==> r.value.out[j] == g.out[j])
      && g.slugs <= r.value.slugs
  {
    var d :- SlugFor(q.docSlug, env.slugify(q.title), g.slugs, env, g.cursor, register);
    var famId := FamilyIdFor(q, g.ids);
    var drawn := FamilyDrawn(q, g.familySlugs);
    var f :- SlugFor(Or(q.familySlug, Stored(g.familySlugs, q.action, q.familyName)), env.slugify(q.familyName), d.lookup, env, d.cursor, register);
    var coll := CollectionFor(q, g.collections);
    Success(GenState(
      f.lookup,
      Record(g.ids, Entry(q.action, q.familyName, famId)),
      Record(g.familySlugs, Entry(q.action, q.familyName, f.slug)),
      if HasCollection(q) then Record(g.collections, Entry(q.action, q.collectionName, coll)) else g.collections,
      f.cursor,
      g.out + [Resolved(DocIdFor(q), d.slug, famId, f.slug, coll, drawn)]))
  }

  /** The pass over the rows; the first exhausted slug ends it. */
  function Generate(qs: seq<Request>, slugs: set<string>, env: Env, register: bool): (r: Result<GenState, Failure>)
    ensures r.Success? ==> |r.value.out| == |qs| && slugs <= r.value.slugs
    ensures r.Failure? ==> r.error.SlugExhausted?
  {
    if |qs| == 0 then Success(GenState(slugs, map[], map[], map[], 0, []))
    else
      match Generate(qs[..|qs| - 1], slugs, env, register)
      case Failure(e) => Failure(e)
      case Success(g) => GenRow(g, qs[|qs| - 1], env, register)
  }

  /** `{**row, **{...}}`: the row with the five CPR values written in. */
  function Emit(row: Row, res: Resolved): (r: Row)
    ensures r.Keys == row.Keys + {CprDocumentId, CprDocumentSlug, CprFamilyId, CprFamilySlug, CprCollectionId}
    ensures forall k :: k in row && k !in {CprDocumentId, CprDocumentSlug, CprFamilyId, CprFamilySlug, CprCollectionId} ==> r[k] == row[k]
    ensures r[CprDocumentId] == res.docId && r[CprDocumentSlug] == res.docSlug
    ensures r[CprFamilyId] == res.familyId && r[CprFamilySlug] == res.familySlug
    ensures r[CprCollectionId] == res.collectionId
  {
    row[CprDocumentId := res.docId][CprDocumentSlug := res.docSlug][CprFamilyId := res.familyId]
       [CprFamilySlug := res.familySlug][CprCollectionId := res.collectionId]
  }

  function Asks(rows: seq<Row>): (qs: seq<Request>)
    ensures |qs| == |rows|
    ensures forall k :: 0 <= k < |rows| ==> qs[k] == Ask(rows[k])
  {
    seq(|rows|, k requires 0 <= k < |rows| => Ask(rows[k]))
  }

  /** The output rows, each input row with its values written in. */
  function EmitAll(rows: seq<Row>, out: seq<Resolved>): (r: seq<Row>)
    requires |out| == |rows|
    ensures |r| == |rows|
    ensures forall k :: 0 <= k < |rows| ==> r[k] == Emit(rows[k], out[k])
  {
    seq(|rows|, k requires 0 <= k < |rows| => Emit(rows[k], out[k]))
  }

  /** The first pass, then the second on the slugs the first collected;
      `register` chooses the slug generator. */
  function Process(sheet: Sheet, env: Env, register: bool): (r: Result<seq<Row>, Failure>)
    ensures CclwScan.ReadDfcData(sheet).Failure? ==> r == Failure(CclwScan.ReadDfcData(sheet).error)
    ensures r.Failure? && CclwScan.ReadDfcData(sheet).Success? ==> r.error.SlugExhausted?
    ensures r.Success? ==>
      && CclwScan.ReadDfcData(sheet).Success?
      && var g := Generate(Asks(sheet.rows), CclwScan.ReadDfcData(sheet).value.slugs, env, register);
      && g.Success?
      && |r.value| == |sheet.rows|
      && forall k :: 0 <= k < |sheet.rows| ==> r.value[k] == Emit(sheet.rows[k], g.value.out[k])
  {
    match CclwScan.ReadDfcData(sheet)
    case Failure(e) => Failure(e)
    case Success(st) =>
      match Generate(Asks(sheet.rows), st.slugs, env, register)
      case Failure(e) => Failure(e)
      case Success(g) => Success(EmitAll(sheet.rows, g.out))
  }

  /** main.py's `_process_csv` as written: `_generate_slug` leaves the
      slug lookup alone. */
  function ProcessCsv(sheet: Sheet, env: Env): Result<seq<Row>, Failure> {
    Process(sheet, env, false)
  }

  /** main.py's `_process_csv` with `_generate_slug` registering each slug
      it hands out. */
  function ProcessCsvRegistering(sheet: Sheet, env: Env): Result<seq<Row>, Failure> {
    Process(sheet, env, true)
  }

  // ---------------------------------------------------------------------
  // One row

  /** The row's IDs and what its lookups record. */
  lemma RowLookups(g: GenState, q: Request, env: Env, register: bool)
    requires GenRow(g, q, env, register).Success?
    ensures var r := GenRow(g, q, env, register).value;
      var res := r.out[|g.out|];
      && res.docId == DocIdFor(q)
      && res.familyId == FamilyIdFor(q, g.ids)
      && res.collectionId == CollectionFor(q, g.collections)
      && res.familyDrawn == FamilyDrawn(q, g.familySlugs)
      && (!res.familyDrawn ==> res.familySlug == Or(q.familySlug, Stored(g.familySlugs, q.action, q.familyName)))
      && r.ids == Record(g.ids, Entry(q.action, q.familyName, res.familyId))
      && r.familySlugs == Record(g.familySlugs, Entry(q.action, q.familyName, res.familySlug))
      && r.collections == (if HasCollection(q) then Record(g.collections, Entry(q.action, q.collectionName, res.collectionId)) else g.collections)
  {
  }

  /** The two slug draws of a row. */
  lemma RowDraws(g: GenState, q: Request, env: Env, register: bool)
    requires GenRow(g, q, env, register).Success?
    ensures var d := SlugFor(q.docSlug, env.slugify(q.title), g.slugs, env, g.cursor, register);
      && d.Success?
      && var f := SlugFor(Or(q.familySlug, Stored(g.familySlugs, q.action, q.familyName)), env.slugify(q.familyName), d.value.lookup, env, d.value.cursor, register);
      && f.Success?
      && var r := GenRow(g, q, env, register).value;
      && r.out[|g.out|].docSlug == d.value.slug
      && r.out[|g.out|].familySlug == f.value.slug
      && r.out[|g.out|].familyDrawn == FamilyDrawn(q, g.familySlugs)
      && r.slugs == f.value.lookup
  {
  }

  /** The row's slugs: its own, or drawn ones not in the lookup; with
      `register` the lookup gains exactly the drawn ones, and the family
      slug drawn after a document slug avoids it. */
  lemma RowSlugs(g: GenState, q: Request, env: Env, register: bool)
    requires GenRow(g, q, env, register).Success?
    ensures var r := GenRow(g, q, env, register).value;
      var res := r.out[|g.out|];
      && (q.docSlug != "" ==> res.docSlug == q.docSlug)
      && (q.docSlug == "" ==> res.docSlug !in g.slugs && exists i :: res.docSlug == Compose(env.slugify(q.title), Suffix(env.uuid, i)))
      && (res.familyDrawn ==> res.familySlug !in g.slugs && exists i :: res.familySlug == Compose(env.slugify(q.familyName), Suffix(env.uuid, i)))
      && (register ==> r.slugs == g.slugs + (if q.docSlug == "" then {res.docSlug} else {}) + (if res.familyDrawn then {res.familySlug} else {}))
      && (register && q.docSlug == "" && res.familyDrawn ==> res.familySlug != res.docSlug)
      && (!register ==> r.slugs == g.slugs)
  {
    RowDraws(g, q, env, register);
    var d := SlugFor(q.docSlug, env.slugify(q.title), g.slugs, env, g.cursor, register).value;
    if q.docSlug == "" {
      DrawnSlug(env.slugify(q.title), g.slugs, env, g.cursor, register);
    }
    if FamilyDrawn(q, g.familySlugs) {
      DrawnSlug(env.slugify(q.familyName), d.lookup, env, d.cursor, register);
    }
  }

  // ---------------------------------------------------------------------
  // The pass

  /** The rows resolved for a prefix are those the whole pass resolves. */
  lemma GenPrefix(qs: seq<Request>, k: nat, slugs: set<string>, env: Env, register: bool)
    requires k <= |qs| && Generate(qs, slugs, env, register).Success?
    ensures Generate(qs[..k], slugs, env, register).Success?
    ensures forall j :: 0 <= j < k ==> Generate(qs[..k], slugs, env, register).value.out[j] == Generate(qs, slugs, env, register).value.out[j]
  {
    PrefixSameOut(qs, k, slugs, env, register);
  }

  /** `GenPrefix`, by induction on the rows after the prefix. */
  lemma {:induction false} PrefixSameOut(qs: seq<Request>, k: nat, slugs: set<string>, env: Env, register: bool)
    requires k <= |qs| && Generate(qs, slugs, env, register).Success?
    ensures Generate(qs[..k], slugs, env, register).Success?
    ensures SameOut(Generate(qs[..k], slugs, env, register).value.out, Generate(qs, slugs, env, register).value.out, k)
    decreases |qs|
  {
    if k < |qs| {
      var prefix := qs[..|qs| - 1];
      GenOutKept(qs, slugs, env, register);
      PrefixSameOut(prefix, k, slugs, env, register);
      assert prefix[..k] == qs[..k];
      SameOutTrans(Generate(qs[..k], slugs, env, register).value.out, Generate(prefix, slugs, env, register).value.out,
        Generate(qs, slugs, env, register).value.out, k, |qs| - 1);
    } else {
      assert qs[..k] == qs;
    }
  }

  /** Agreeing on a prefix is transitive. */
  lemma SameOutTrans(a: seq<Resolved>, b: seq<Resolved>, c: seq<Resolved>, k: nat, n: nat)
    requires k <= n && SameOut(a, b, k) && SameOut(b, c, n)
    ensures SameOut(a, c, k)
  {
  }

  /** The rows before the last are resolved as the whole pass resolves
      them. */
  lemma GenOutKept(qs: seq<Request>, slugs: set<string>, env: Env, register: bool)
    requires |qs| > 0 && Generate(qs, slugs, env, register).Success?
    ensures Generate(qs[..|qs| - 1], slugs, env, register).Success?
    ensures SameOut(Generate(qs[..|qs| - 1], slugs, env, register).value.out, Generate(qs, slugs, env, register).value.out, |qs| - 1)
  {
  }

  /** `a` and `b` agree on their first `k` rows. */
  predicate SameOut(a: seq<Resolved>, b: seq<Resolved>, k: nat) {
    k <= |a| && k <= |b| && forall j :: 0 <= j < k ==> a[j] == b[j]
  }

  /** Row `k` is resolved on the state the rows before it left. */
  lemma GenAt(qs: seq<Request>, k: nat, slugs: set<string>, env: Env, register: bool)
    requires k < |qs| && Generate(qs, slugs, env, register).Success?
    ensures var gk := Generate(qs[..k], slugs, env, register);
      && gk.Success? && |gk.value.out| == k
      && GenRow(gk.value, qs[k], env, register).Success?
      && Generate(qs, slugs, env, register).value.out[k] == GenRow(gk.value, qs[k], env, register).value.out[k]
      && forall j :: 0 <= j < k ==> gk.value.out[j] == Generate(qs, slugs, env, register).value.out[j]
  {
    GenStep(qs, k, slugs, env, register);
    GenOutAt(qs, k, slugs, env, register);
    GenPrefix(qs, k, slugs, env, register);
  }

  /** The state after row `k` is row `k`'s step from the state before it,
      stated on the prefixes. */
  lemma GenStep(qs: seq<Request>, k: nat, slugs: set<string>, env: Env, register: bool)
    requires k < |qs| && Generate(qs, slugs, env, register).Success?
    ensures Generate(qs[..k], slugs, env, register).Success?
    ensures GenRow(Generate(qs[..k], slugs, env, register).value, qs[k], env, register) == Generate(qs[..k + 1], slugs, env, register)
  {
    var p := qs[..k + 1];
    PrefixSucceeds(qs, k + 1, slugs, env, register);
    GenLast(p, slugs, env, register);
    assert p[..|p| - 1] == qs[..k];
    assert p[|p| - 1] == qs[k];
  }

  /** Row `k` of the prefix through `k` is row `k` of the whole pass. */
  lemma GenOutAt(qs: seq<Request>, k: nat, slugs: set<string>, env: Env, register: bool)
    requires k < |qs| && Generate(qs, slugs, env, register).Success?
    ensures Generate(qs[..k + 1], slugs, env, register).Success?
    ensures Generate(qs[..k + 1], slugs, env, register).value.out[k] == Generate(qs, slugs, env, register).value.out[k]
  {
    PrefixSameOut(qs, k + 1, slugs, env, register);
  }

  /** Every prefix of a pass that succeeds succeeds. */
  lemma PrefixSucceeds(qs: seq<Request>, k: nat, slugs: set<string>, env: Env, register: bool)
    requires k <= |qs| && Generate(qs, slugs, env, register).Success?
    ensures Generate(qs[..k], slugs, env, register).Success?
  {
    PrefixSameOut(qs, k, slugs, env, register);
  }

  /** The recordings of `action_families[name]["id"]`, one per row. */
  function IdLog(qs: seq<Request>, out: seq<Resolved>): (log: seq<Option<Entry>>)
    requires |qs| <= |out|
    ensures |log| == |qs|
    ensures forall k :: 0 <= k < |qs| ==> log[k] == Some(Entry(qs[k].action, qs[k].familyName, out[k].familyId))
  {
    seq(|qs|, k requires 0 <= k < |qs| => Some(Entry(qs[k].action, qs[k].familyName, out[k].familyId)))
  }

  /** The recordings of `action_families[name]["slug"]`, one per row. */
  function SlugLog(qs: seq<Request>, out: seq<Resolved>): (log: seq<Option<Entry>>)
    requires |qs| <= |out|
    ensures |log| == |qs|
    ensures forall k :: 0 <= k < |qs| ==> log[k] == Some(Entry(qs[k].action, qs[k].familyName, out[k].familySlug))
  {
    seq(|qs|, k requires 0 <= k < |qs| => Some(Entry(qs[k].action, qs[k].familyName, out[k].familySlug)))
  }

  /** The recordings of `action_collections[name]`: rows with a collection. */
  function CollectionLog(qs: seq<Request>, out: seq<Resolved>): (log: seq<Option<Entry>>)
    requires |qs| <= |out|
    ensures |log| == |qs|
    ensures forall k :: 0 <= k < |qs| ==> log[k] == if HasCollection(qs[k]) then Some(Entry(qs[k].action, qs[k].collectionName, out[k].collectionId)) else None
  {
    seq(|qs|, k requires 0 <= k < |qs| => if HasCollection(qs[k]) then Some(Entry(qs[k].action, qs[k].collectionName, out[k].collectionId)) else None)
  }

  /** One pass step, unfolded. */
  lemma GenLast(qs: seq<Request>, slugs: set<string>, env: Env, register: bool)
    requires |qs| > 0 && Generate(qs, slugs, env, register).Success?
    ensures var gp := Generate(qs[..|qs| - 1], slugs, env, register);
      && gp.Success?
      && Generate(qs, slugs, env, register) == GenRow(gp.value, qs[|qs| - 1], env, register)
  {
  }

  /** Replaying one more recording. */
  lemma ReplaySnoc(log: seq<Option<Entry>>, p: seq<Option<Entry>>, e: Option<Entry>)
    requires log == p + [e]
    ensures Replay(log) == if e.Some? then Record(Replay(p), e.value) else Replay(p)
  {
    assert log[..|log| - 1] == p;
  }

  /** What one row records in the three lookups. */
  lemma RowRecords(g: GenState, q: Request, env: Env, register: bool)
    requires GenRow(g, q, env, register).Success?
    ensures var r := GenRow(g, q, env, register).value;
      var res := r.out[|g.out|];
      && r.ids == Record(g.ids, Entry(q.action, q.familyName, res.familyId))
      && r.familySlugs == Record(g.familySlugs, Entry(q.action, q.familyName, res.familySlug))
      && r.collections == (if HasCollection(q) then Record(g.collections, Entry(q.action, q.collectionName, res.collectionId)) else g.collections)
  {
    RowLookups(g, q, env, register);
  }

  /** The logs of a pass extend those of its prefix by the last row. */
  lemma LogsSnoc(qs: seq<Request>, out: seq<Resolved>, outp: seq<Resolved>)
    requires |qs| > 0 && |out| == |qs| && |outp| == |qs| - 1
    requires forall j :: 0 <= j < |outp| ==> out[j] == outp[j]
    ensures var q := qs[|qs| - 1];
      var res := out[|qs| - 1];
      && IdLog(qs, out) == IdLog(qs[..|qs| - 1], outp) + [Some(Entry(q.action, q.familyName, res.familyId))]
      && SlugLog(qs, out) == SlugLog(qs[..|qs| - 1], outp) + [Some(Entry(q.action, q.familyName, res.familySlug))]
      && CollectionLog(qs, out) == CollectionLog(qs[..|qs| - 1], outp)
           + [if HasCollection(q) then Some(Entry(q.action, q.collectionName, res.collectionId)) else None]
  {
  }

  /** The three lookups are the replays of the rows' recordings. */
  lemma {:induction false} LookupsReplayed(qs: seq<Request>, slugs: set<string>, env: Env, register: bool)
    requires Generate(qs, slugs, env, register).Success?
    ensures var g := Generate(qs, slugs, env, register).value;
      && g.ids == Replay(IdLog(qs, g.out))
      && g.familySlugs == Replay(SlugLog(qs, g.out))
      && g.collections == Replay(CollectionLog(qs, g.out))
    decreases |qs|
  {
    if |qs| > 0 {
      var prefix := qs[..|qs| - 1];
      GenLast(qs, slugs, env, register);
      var gp := Generate(prefix, slugs, env, register).value;
      var g := Generate(qs, slugs, env, register).value;
      LookupsReplayed(prefix, slugs, env, register);
      RowRecords(gp, qs[|qs| - 1], env, register);
      LogsSnoc(qs, g.out, gp.out);
      var q := qs[|qs| - 1];
      var res := g.out[|qs| - 1];
      ReplaySnoc(IdLog(qs, g.out), IdLog(prefix, gp.out), Some(Entry(q.action, q.familyName, res.familyId)));
      ReplaySnoc(SlugLog(qs, g.out), SlugLog(prefix, gp.out), Some(Entry(q.action, q.familyName, res.familySlug)));
      ReplaySnoc(CollectionLog(qs, g.out), CollectionLog(prefix, gp.out),
        if HasCollection(q) then Some(Entry(q.action, q.collectionName, res.collectionId)) else None);
    }
  }


  // ---------------------------------------------------------------------
  // Row k of the pass

  /** The lookups row `k` meets: the replays of the rows before it. */
  function Before(qs: seq<Request>, k: nat, slugs: set<string>, env: Env, register: bool): (g: GenState)
    requires k <= |qs| && Generate(qs, slugs, env, register).Success?
    ensures Generate(qs[..k], slugs, env, register).Success?
    ensures g == Generate(qs[..k], slugs, env, register).value
  {
    GenPrefix(qs, k, slugs, env, register);
    Generate(qs[..k], slugs, env, register).value
  }

  /** The lookups before row `k`, described by the rows before it. */
  lemma StateBefore(qs: seq<Request>, k: nat, slugs: set<string>, env: Env, register: bool)
    requires k <= |qs| && Generate(qs, slugs, env, register).Success?
    ensures var out := Generate(qs, slugs, env, register).value.out;
      var g := Before(qs, k, slugs, env, register);
      && g.ids == Replay(IdLog(qs[..k], out))
      && g.familySlugs == Replay(SlugLog(qs[..k], out))
      && g.collections == Replay(CollectionLog(qs[..k], out))
  {
    var out := Generate(qs, slugs, env, register).value.out;
    var g := Before(qs, k, slugs, env, register);
    GenPrefix(qs, k, slugs, env, register);
    LookupsReplayed(qs[..k], slugs, env, register);
    assert IdLog(qs[..k], g.out) == IdLog(qs[..k], out);
    assert SlugLog(qs[..k], g.out) == SlugLog(qs[..k], out);
    assert CollectionLog(qs[..k], g.out) == CollectionLog(qs[..k], out);
  }

  /** Row `k` is resolved against the lookups before it. */
  lemma RowAt(qs: seq<Request>, k: nat, slugs: set<string>, env: Env, register: bool)
    requires k < |qs| && Generate(qs, slugs, env, register).Success?
    ensures var res := Generate(qs, slugs, env, register).value.out[k];
      var g := Before(qs, k, slugs, env, register);
      && res.docId == DocIdFor(qs[k])
      && res.familyId == FamilyIdFor(qs[k], g.ids)
      && res.collectionId == CollectionFor(qs[k], g.collections)
      && res.familyDrawn == FamilyDrawn(qs[k], g.familySlugs)
      && (!res.familyDrawn ==> res.familySlug == Or(qs[k].familySlug, Stored(g.familySlugs, qs[k].action, qs[k].familyName)))
  {
    GenAt(qs, k, slugs, env, register);
    RowLookups(Before(qs, k, slugs, env, register), qs[k], env, register);
  }

  /** Rows `m` and `k` belong to the same family of the same action. */
  predicate SameFamily(qs: seq<Request>, m: nat, k: nat)
    requires m < |qs| && k < |qs|
  {
    qs[m].action == qs[k].action && qs[m].familyName == qs[k].familyName
  }

  /** Row `m` is the last row before `k` of `k`'s family. */
  predicate LatestOfFamily(qs: seq<Request>, m: nat, k: nat)
    requires k < |qs|
  {
    m < k && SameFamily(qs, m, k) && forall j :: m < j < k ==> !SameFamily(qs, j, k)
  }

  /** The family names of `action` among the rows before `k`. */
  function FamiliesBefore(qs: seq<Request>, k: nat, action: string): set<string>
    requires k <= |qs|
  {
    set m | 0 <= m < k && qs[m].action == action :: qs[m].familyName
  }

  /** Every row ends up with a family ID and a collection ID. */
  lemma IdsNonEmpty(qs: seq<Request>, k: nat, slugs: set<string>, env: Env, register: bool)
    requires k < |qs| && Generate(qs, slugs, env, register).Success?
    ensures var res := Generate(qs, slugs, env, register).value.out[k];
      res.familyId != "" && res.collectionId != ""
  {
    RowAt(qs, k, slugs, env, register);
  }

  /** The family-ID log hits a key exactly at the rows of that family. */
  lemma IdLogHits(qs: seq<Request>, out: seq<Resolved>, k: nat)
    requires k < |qs| <= |out|
    ensures forall j :: 0 <= j < k ==> (Hits(IdLog(qs[..k], out), j, qs[k].action, qs[k].familyName) <==> SameFamily(qs, j, k))
    ensures forall j :: 0 <= j < k ==> (Hits(SlugLog(qs[..k], out), j, qs[k].action, qs[k].familyName) <==> SameFamily(qs, j, k))
  {
  }

  /** A row without a family ID takes the one of the last earlier row of
      its family. */
  lemma FamilyIdReused(qs: seq<Request>, k: nat, m: nat, slugs: set<string>, env: Env, register: bool)
    requires k < |qs| && Generate(qs, slugs, env, register).Success?
    requires qs[k].familyId == "" && LatestOfFamily(qs, m, k)
    ensures var out := Generate(qs, slugs, env, register).value.out;
      out[k].familyId == out[m].familyId
  {
    var out := Generate(qs, slugs, env, register).value.out;
    RowAt(qs, k, slugs, env, register);
    StateBefore(qs, k, slugs, env, register);
    IdLogHits(qs, out, k);
    ReplayLatest(IdLog(qs[..k], out), m);
    IdsNonEmpty(qs, m, slugs, env, register);
  }

  /** A row without a family ID whose family no earlier row has gets
      `CCLW.family.{action}.{n}`, `n` counting the action's earlier
      family names. */
  lemma FamilyIdNumbered(qs: seq<Request>, k: nat, slugs: set<string>, env: Env, register: bool)
    requires k < |qs| && Generate(qs, slugs, env, register).Success?
    requires qs[k].familyId == "" && forall m :: 0 <= m < k ==> !SameFamily(qs, m, k)
    ensures var out := Generate(qs, slugs, env, register).value.out;
      out[k].familyId == FamilyIdTemplate(qs[k].action, |FamiliesBefore(qs, k, qs[k].action)|)
  {
    var out := Generate(qs, slugs, env, register).value.out;
    var log := IdLog(qs[..k], out);
    RowAt(qs, k, slugs, env, register);
    StateBefore(qs, k, slugs, env, register);
    IdLogHits(qs, out, k);
    ReplayUnseen(log, qs[k].action, qs[k].familyName);
    ReplayGroupKeys(log, qs[k].action);
    FamiliesLogged(qs, out, k, qs[k].action);
    CountKeys(Replay(log), qs[k].action);
  }

  /** The family-ID log names the families of the rows before `k`. */
  lemma FamiliesLogged(qs: seq<Request>, out: seq<Resolved>, k: nat, action: string)
    requires k <= |qs| <= |out|
    ensures NamesFor(IdLog(qs[..k], out), action) == FamiliesBefore(qs, k, action)
  {
    var log := IdLog(qs[..k], out);
    forall x | x in FamiliesBefore(qs, k, action) ensures x in NamesFor(log, action) {
      var m :| 0 <= m < k && qs[m].action == action && qs[m].familyName == x;
      assert log[m].value.name == x;
    }
  }

  /** `len(lookup[action])` is the number of its names. */
  lemma CountKeys(reg: Registry, action: string)
    ensures Count(reg, action) == |Group(reg, action).Keys|
  {
  }


  /** The values a row already has are the values written for it, and a
      row without a document ID gets `CCLW.{category}.{action}.{number}`. */
  lemma RowKept(qs: seq<Request>, k: nat, slugs: set<string>, env: Env, register: bool)
    requires k < |qs| && Generate(qs, slugs, env, register).Success?
    ensures var q := qs[k];
      var res := Generate(qs, slugs, env, register).value.out[k];
      && (q.docId != "" ==> res.docId == q.docId)
      && (q.docId == "" ==> res.docId == "CCLW." + q.category + "." + q.action + "." + q.docNo)
      && (q.docSlug != "" ==> res.docSlug == q.docSlug)
      && (q.familyId != "" ==> res.familyId == q.familyId)
      && (q.familySlug != "" ==> res.familySlug == q.familySlug && !res.familyDrawn)
      && (HasCollection(q) && q.collectionId != "" ==> res.collectionId == q.collectionId)
      && (!HasCollection(q) ==> res.collectionId == "N/A")
  {
    RowAt(qs, k, slugs, env, register);
    GenAt(qs, k, slugs, env, register);
    RowSlugs(Before(qs, k, slugs, env, register), qs[k], env, register);
  }

  /** Every row ends up with a family slug. */
  lemma FamilySlugNonEmpty(qs: seq<Request>, k: nat, slugs: set<string>, env: Env, register: bool)
    requires k < |qs| && Generate(qs, slugs, env, register).Success?
    ensures Generate(qs, slugs, env, register).value.out[k].familySlug != ""
  {
    GenAt(qs, k, slugs, env, register);
    RowDraws(Before(qs, k, slugs, env, register), qs[k], env, register);
  }

  /** A row without a family slug takes the one of the last earlier row
      of its family, without drawing. */
  lemma FamilySlugReused(qs: seq<Request>, k: nat, m: nat, slugs: set<string>, env: Env, register: bool)
    requires k < |qs| && Generate(qs, slugs, env, register).Success?
    requires qs[k].familySlug == "" && LatestOfFamily(qs, m, k)
    ensures var out := Generate(qs, slugs, env, register).value.out;
      out[k].familySlug == out[m].familySlug && !out[k].familyDrawn
  {
    var out := Generate(qs, slugs, env, register).value.out;
    RowAt(qs, k, slugs, env, register);
    StateBefore(qs, k, slugs, env, register);
    IdLogHits(qs, out, k);
    ReplayLatest(SlugLog(qs[..k], out), m);
    FamilySlugNonEmpty(qs, m, slugs, env, register);
  }

  /** A row without a family slug whose family no earlier row has draws a
      new one from the family name, outside the slugs the first pass
      collected. */
  lemma FamilySlugDrawn(qs: seq<Request>, k: nat, slugs: set<string>, env: Env, register: bool)
    requires k < |qs| && Generate(qs, slugs, env, register).Success?
    requires qs[k].familySlug == "" && forall m :: 0 <= m < k ==> !SameFamily(qs, m, k)
    ensures var res := Generate(qs, slugs, env, register).value.out[k];
      && res.familyDrawn
      && res.familySlug !in slugs
      && exists i :: res.familySlug == Compose(env.slugify(qs[k].familyName), Suffix(env.uuid, i))
  {
    var out := Generate(qs, slugs, env, register).value.out;
    RowAt(qs, k, slugs, env, register);
    StateBefore(qs, k, slugs, env, register);
    IdLogHits(qs, out, k);
    ReplayUnseen(SlugLog(qs[..k], out), qs[k].action, qs[k].familyName);
    GenAt(qs, k, slugs, env, register);
    RowSlugs(Before(qs, k, slugs, env, register), qs[k], env, register);
  }

  /** A row without a document slug draws a new one from its title,
      outside the slugs the first pass collected. */
  lemma DocSlugDrawn(qs: seq<Request>, k: nat, slugs: set<string>, env: Env, register: bool)
    requires k < |qs| && Generate(qs, slugs, env, register).Success?
    requires qs[k].docSlug == ""
    ensures var res := Generate(qs, slugs, env, register).value.out[k];
      && res.docSlug !in slugs
      && exists i :: res.docSlug == Compose(env.slugify(qs[k].title), Suffix(env.uuid, i))
  {
    GenAt(qs, k, slugs, env, register);
    RowSlugs(Before(qs, k, slugs, env, register), qs[k], env, register);
  }

  /** Rows `m` and `k` name the same collection of the same action. */
  predicate SameCollection(qs: seq<Request>, m: nat, k: nat)
    requires m < |qs| && k < |qs|
  {
    HasCollection(qs[m]) && qs[m].action == qs[k].action && qs[m].collectionName == qs[k].collectionName
  }

  /** Row `m` is the last row before `k` naming `k`'s collection. */
  predicate LatestOfCollection(qs: seq<Request>, m: nat, k: nat)
    requires k < |qs|
  {
    m < k && SameCollection(qs, m, k) && forall j :: m < j < k ==> !SameCollection(qs, j, k)
  }

  /** The collection names of `action` among the rows before `k`. */
  function CollectionsBefore(qs: seq<Request>, k: nat, action: string): set<string>
    requires k <= |qs|
  {
    set m | 0 <= m < k && HasCollection(qs[m]) && qs[m].action == action :: qs[m].collectionName
  }

  /** The collection log hits a key exactly at the rows naming it. */
  lemma CollectionLogHits(qs: seq<Request>, out: seq<Resolved>, k: nat)
    requires k < |qs| <= |out|
    ensures forall j :: 0 <= j < k ==> (Hits(CollectionLog(qs[..k], out), j, qs[k].action, qs[k].collectionName) <==> SameCollection(qs, j, k))
  {
  }

  /** The collection log names the collections of the rows before `k`. */
  lemma CollectionsLogged(qs: seq<Request>, out: seq<Resolved>, k: nat, action: string)
    requires k <= |qs| <= |out|
    ensures NamesFor(CollectionLog(qs[..k], out), action) == CollectionsBefore(qs, k, action)
  {
    var log := CollectionLog(qs[..k], out);
    forall x | x in CollectionsBefore(qs, k, action) ensures x in NamesFor(log, action) {
      var m :| 0 <= m < k && HasCollection(qs[m]) && qs[m].action == action && qs[m].collectionName == x;
      assert log[m].value.name == x;
    }
  }

  /** A row naming a collection but without its ID takes the ID of the
      last earlier row naming that collection. */
  lemma CollectionReused(qs: seq<Request>, k: nat, m: nat, slugs: set<string>, env: Env, register: bool)
    requires k < |qs| && Generate(qs, slugs, env, register).Success?
    requires HasCollection(qs[k]) && qs[k].collectionId == "" && LatestOfCollection(qs, m, k)
    ensures var out := Generate(qs, slugs, env, register).value.out;
      out[k].collectionId == out[m].collectionId
  {
    var out := Generate(qs, slugs, env, register).value.out;
    RowAt(qs, k, slugs, env, register);
    StateBefore(qs, k, slugs, env, register);
    CollectionLogHits(qs, out, k);
    ReplayLatest(CollectionLog(qs[..k], out), m);
    IdsNonEmpty(qs, m, slugs, env, register);
  }

  /** A row naming a collection no earlier row of its action names gets
      `CCLW.collection.{action}.{n}`, `n` counting the action's earlier
      collection names. */
  lemma CollectionNumbered(qs: seq<Request>, k: nat, slugs: set<string>, env: Env, register: bool)
    requires k < |qs| && Generate(qs, slugs, env, register).Success?
    requires HasCollection(qs[k]) && qs[k].collectionId == ""
    requires forall m :: 0 <= m < k ==> !SameCollection(qs, m, k)
    ensures var out := Generate(qs, slugs, env, register).value.out;
      out[k].collectionId == CollectionIdTemplate(qs[k].action, |CollectionsBefore(qs, k, qs[k].action)|)
  {
    var out := Generate(qs, slugs, env, register).value.out;
    var log := CollectionLog(qs[..k], out);
    RowAt(qs, k, slugs, env, register);
    StateBefore(qs, k, slugs, env, register);
    CollectionLogHits(qs, out, k);
    ReplayUnseen(log, qs[k].action, qs[k].collectionName);
    ReplayGroupKeys(log, qs[k].action);
    CollectionsLogged(qs, out, k, qs[k].action);
    CountKeys(Replay(log), qs[k].action);
  }


  // ---------------------------------------------------------------------
  // Document slugs

  /** The state after row `k` is row `k`'s step from the state before it. */
  lemma BeforeNext(qs: seq<Request>, k: nat, slugs: set<string>, env: Env, register: bool)
    requires k < |qs| && Generate(qs, slugs, env, register).Success?
    ensures GenRow(Before(qs, k, slugs, env, register), qs[k], env, register) == Success(Before(qs, k + 1, slugs, env, register))
  {
    GenStep(qs, k, slugs, env, register);
  }

  /** The slug lookup only grows along the pass, from the first pass's
      slugs on. */
  lemma {:induction false} SlugsGrow(qs: seq<Request>, i: nat, j: nat, slugs: set<string>, env: Env, register: bool)
    requires i <= j <= |qs| && Generate(qs, slugs, env, register).Success?
    ensures slugs <= Before(qs, i, slugs, env, register).slugs <= Before(qs, j, slugs, env, register).slugs
    decreases j - i
  {
    if i < j {
      SlugsGrow(qs, i + 1, j, slugs, env, register);
      BeforeNext(qs, i, slugs, env, register);
    }
  }

  /** With a registering generator, a drawn document slug is in the lookup
      from the next row on. */
  lemma DocSlugKept(qs: seq<Request>, k: nat, slugs: set<string>, env: Env)
    requires k < |qs| && Generate(qs, slugs, env, true).Success?
    requires qs[k].docSlug == ""
    ensures Generate(qs, slugs, env, true).value.out[k].docSlug in Before(qs, k + 1, slugs, env, true).slugs
    ensures Generate(qs, slugs, env, true).value.out[k].docSlug !in Before(qs, k, slugs, env, true).slugs
  {
    GenAt(qs, k, slugs, env, true);
    BeforeNext(qs, k, slugs, env, true);
    RowSlugs(Before(qs, k, slugs, env, true), qs[k], env, true);
  }

  /** The document slugs the rows already have are distinct and among the
      first pass's slugs. */
  predicate GivenSlugsClaimed(qs: seq<Request>, slugs: set<string>) {
    && (forall m :: 0 <= m < |qs| && qs[m].docSlug != "" ==> qs[m].docSlug in slugs)
    && (forall a, b :: 0 <= a < b < |qs| && qs[a].docSlug != "" && qs[b].docSlug != "" ==> qs[a].docSlug != qs[b].docSlug)
  }

  /** With a registering generator, no two rows end up with the same
      document slug. */
  lemma DocSlugsDistinct(qs: seq<Request>, i: nat, j: nat, slugs: set<string>, env: Env)
    requires i < j < |qs| && Generate(qs, slugs, env, true).Success?
    requires GivenSlugsClaimed(qs, slugs)
    ensures var out := Generate(qs, slugs, env, true).value.out;
      out[i].docSlug != out[j].docSlug
  {
    RowKept(qs, i, slugs, env, true);
    RowKept(qs, j, slugs, env, true);
    if qs[i].docSlug == "" {
      DocSlugKept(qs, i, slugs, env);
      SlugsGrow(qs, i, i + 1, slugs, env, true);
      SlugsGrow(qs, i + 1, j, slugs, env, true);
      if qs[j].docSlug == "" {
        DocSlugKept(qs, j, slugs, env);
      }
    } else if qs[j].docSlug == "" {
      DocSlugKept(qs, j, slugs, env);
      SlugsGrow(qs, 0, j, slugs, env, true);
    }
  }


  /** A document slug the second pass reads is one the first pass saw. */
  lemma GivenRead(row: Row)
    requires Ask(row).docSlug != ""
    ensures CclwScan.Read(row).docSlug == Some(Ask(row).docSlug)
  {
    SuppliedCell(row, CprDocumentSlug);
  }

  /** A cell that is not blank is supplied, with its stripped text. */
  lemma SuppliedCell(row: Row, key: string)
    requires Cell(row, key) != ""
    ensures CclwScan.Supplied(row, key) == Some(Cell(row, key))
  {
    assert Strip("") == "";
  }

  /** A sheet the first pass accepts has distinct document slugs, all
      collected. */
  lemma GivenClaimedByScan(sheet: Sheet)
    requires CclwScan.ReadDfcData(sheet).Success?
    ensures GivenSlugsClaimed(Asks(sheet.rows), CclwScan.ReadDfcData(sheet).value.slugs)
  {
    AllGivenCollected(sheet);
    AllGivenDiffer(sheet);
  }

  /** Every row's own document slug is among the first pass's slugs. */
  lemma AllGivenCollected(sheet: Sheet)
    requires CclwScan.ReadDfcData(sheet).Success?
    ensures var qs := Asks(sheet.rows);
      forall m :: 0 <= m < |qs| && qs[m].docSlug != "" ==> qs[m].docSlug in CclwScan.ReadDfcData(sheet).value.slugs
  {
    var qs := Asks(sheet.rows);
    forall m | 0 <= m < |qs| && qs[m].docSlug != "" ensures qs[m].docSlug in CclwScan.ReadDfcData(sheet).value.slugs {
      GivenCollected(sheet, m);
    }
  }

  /** The rows' own document slugs differ pairwise. */
  lemma AllGivenDiffer(sheet: Sheet)
    requires CclwScan.ReadDfcData(sheet).Success?
    ensures var qs := Asks(sheet.rows);
      forall a, b :: 0 <= a < b < |qs| && qs[a].docSlug != "" && qs[b].docSlug != "" ==> qs[a].docSlug != qs[b].docSlug
  {
    var qs := Asks(sheet.rows);
    forall a, b | 0 <= a < b < |qs| && qs[a].docSlug != "" && qs[b].docSlug != "" ensures qs[a].docSlug != qs[b].docSlug {
      GivenDiffer(sheet, a, b);
    }
  }

  /** A row's own document slug is among the first pass's slugs. */
  lemma GivenCollected(sheet: Sheet, m: nat)
    requires CclwScan.ReadDfcData(sheet).Success?
    requires m < |sheet.rows| && Ask(sheet.rows[m]).docSlug != ""
    ensures Ask(sheet.rows[m]).docSlug in CclwScan.ReadDfcData(sheet).value.slugs
  {
    GivenRead(sheet.rows[m]);
    Collected(CclwScan.Lines(sheet.rows), m);
  }

  /** The first pass collects every document slug. */
  lemma Collected(ls: seq<CclwScan.Line>, m: nat)
    requires m < |ls| && ls[m].docSlug.Some?
    ensures ls[m].docSlug.value in CclwScan.Scan(ls, CclwScan.FamilySlugRegistered).slugs
  {
    CclwScan.DocSlugSeen(ls, m, |ls|, CclwScan.FamilySlugRegistered);
    assert ls[..|ls|] == ls;
  }

  /** Two rows' own document slugs differ on a sheet the first pass accepts. */
  lemma GivenDiffer(sheet: Sheet, a: nat, b: nat)
    requires CclwScan.ReadDfcData(sheet).Success?
    requires a < b < |sheet.rows| && Ask(sheet.rows[a]).docSlug != "" && Ask(sheet.rows[b]).docSlug != ""
    ensures Ask(sheet.rows[a]).docSlug != Ask(sheet.rows[b]).docSlug
  {
    GivenRead(sheet.rows[a]);
    GivenRead(sheet.rows[b]);
    CclwScan.DocSlugsDiffer(CclwScan.Lines(sheet.rows), a, b, CclwScan.FamilySlugRegistered);
  }

  /** With a registering slug generator, every document slug of the
      output is unique. */
  lemma ProcessCsvSlugsDistinct(sheet: Sheet, env: Env, i: nat, j: nat)
    requires ProcessCsvRegistering(sheet, env).Success? && i < j < |sheet.rows|
    ensures ProcessCsvRegistering(sheet, env).value[i][CprDocumentSlug] != ProcessCsvRegistering(sheet, env).value[j][CprDocumentSlug]
  {
    GivenClaimedByScan(sheet);
    DocSlugsDistinct(Asks(sheet.rows), i, j, CclwScan.ReadDfcData(sheet).value.slugs, env);
  }

  // ---------------------------------------------------------------------
  // main.py's slug generator as written

  /** A `uuid4()` stream whose renderings all share their first four
      characters. */
  const SameDraws := Env(s => s, i => "abcd")

  /** Every draw of the stream gives the suffix `abcd`. */
  lemma SameSuffix(base: string, i: nat)
    ensures Compose(base, Suffix(SameDraws.uuid, i)) == base + "_abcd"
  {
    assert Take("abcd", SuffixLength) == "abcd";
  }

  /** A row meeting an empty slug lookup draws both its slugs, and without
      registering the lookup stays empty. */
  lemma TwinRow(g: GenState, q: Request)
    requires g.slugs == {} && q.docSlug == "" && q.familySlug == ""
    ensures GenRow(g, q, SameDraws, false).Success?
    ensures var r := GenRow(g, q, SameDraws, false).value;
      r.slugs == {} && r.out[|g.out|].docSlug == q.title + "_abcd"
  {
    var env := SameDraws;
    assert Candidate(q.title, env.uuid, g.cursor, 0) !in g.slugs;
    var d := SlugFor(q.docSlug, env.slugify(q.title), g.slugs, env, g.cursor, false);
    assert d.Success?;
    var given := Or(q.familySlug, Stored(g.familySlugs, q.action, q.familyName));
    assert Candidate(env.slugify(q.familyName), env.uuid, d.value.cursor, 0) !in d.value.lookup;
    assert SlugFor(given, env.slugify(q.familyName), d.value.lookup, env, d.value.cursor, false).Success?;
    RowSlugs(g, q, env, false);
    var r := GenRow(g, q, env, false).value;
    var i :| r.out[|g.out|].docSlug == Compose(env.slugify(q.title), Suffix(env.uuid, i));
    SameSuffix(q.title, i);
  }

  /** main.py's `_generate_slug` does not add the slugs it hands out to
      `existing_slugs`: two rows without slugs and with the same title,
      meeting two draws that share their first four characters, get the
      same document slug. */
  lemma AsWrittenDuplicateSlugs(a: Request, b: Request)
    requires a.docSlug == "" && a.familySlug == "" && b.docSlug == "" && b.familySlug == ""
    requires a.title == b.title
    ensures Generate([a, b], {}, SameDraws, false).Success?
    ensures var out := Generate([a, b], {}, SameDraws, false).value.out;
      out[0].docSlug == out[1].docSlug == a.title + "_abcd"
  {
    var qs := [a, b];
    var env := SameDraws;
    assert qs[..1][..0] == [] && qs[..2] == qs && qs[..1] == qs[..2][..1];
    var g0 := GenState({}, map[], map[], map[], 0, []);
    assert Generate(qs[..1][..0], {}, env, false) == Success(g0);
    TwinRow(g0, a);
    var g1 := GenRow(g0, a, env, false).value;
    assert Generate(qs[..1], {}, env, false) == Success(g1);
    TwinRow(g1, b);
    assert Generate(qs, {}, env, false) == GenRow(g1, b, env, false);
  }
}
