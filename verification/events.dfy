/** main_events.py: scan the DFC sheet with the CCLW scanner (which here
    also keeps each family's document IDs and the family IDs of each
    action), then keep the events whose action belongs to more than one
    family, grouped by action. */
module Events {
  import opened Wrappers
  import opened Table
  import opened CclwScan

  /** `REQUIRED_EVENTS_COLUMNS`. */
  const EventColumns: seq<string> := [
    "Id", "Eventable type", "Eventable Id", "Eventable name", "Event type",
    "Title", "Description", "Date", "Url"]

  /** `_read_existing_dfc_data` as written: the first row of a family
      registers the row's document slug (`""` when it has none) where it
      checked the family slug. */
  function ReadEventsDfcData(sheet: Sheet): (r: Result<ScanState, Failure>)
    ensures r.Failure? <==> !HasColumns(EventsDfcColumns, sheet.header) || Scan(Lines(sheet.rows), DocSlugRegistered).errors != []
    ensures r.Failure? && !HasColumns(EventsDfcColumns, sheet.header) ==>
      r.error == SchemaError(MissingColumns(EventsDfcColumns, sheet.header))
    ensures r.Failure? && HasColumns(EventsDfcColumns, sheet.header) ==>
      r.error == RowErrors(Scan(Lines(sheet.rows), DocSlugRegistered).errors)
    ensures r.Success? ==> r.value == Scan(Lines(sheet.rows), DocSlugRegistered)
  {
    ReadExistingData(sheet, EventsDfcColumns, DocSlugRegistered)
  }

  /** `_read_existing_dfc_data` registering the family slug it checked. */
  function ReadEventsDfcDataCorrected(sheet: Sheet): Result<ScanState, Failure> {
    ReadExistingData(sheet, EventsDfcColumns, FamilySlugRegistered)
  }

  // ---------------------------------------------------------------------
  // Document IDs per family

  /** The document IDs (or "") of the lines of family `id` named `name`,
      in line order. */
  function DocIdsNamed(ls: seq<Line>, id: string, name: string): seq<string> {
    if |ls| == 0 then []
    else
      var l := ls[|ls| - 1];
      DocIdsNamed(ls[..|ls| - 1], id, name) + if l.familyId == Some(id) && l.familyName == name then [Text(l.docId)] else []
  }

  /** A family's `Document IDs` list holds the document IDs of exactly
      the lines that supply its family ID under its recorded name (the
      first line's name), in order; a line under another name is flagged
      instead. */
  lemma {:induction false} FamilyDocIds(ls: seq<Line>, id: string, reg: Registration)
    requires id in Scan(ls, reg).families
    ensures Scan(ls, reg).families[id].docIds == DocIdsNamed(ls, id, Scan(ls, reg).families[id].name)
    decreases |ls|
  {
    var prefix := ls[..|ls| - 1];
    var l := ls[|ls| - 1];
    var prev := Scan(prefix, reg);
    ScanLast(ls, reg);
    RowFamilies(prev, l, |ls|, reg);
    if id in prev.families {
      FamilyDocIds(prefix, id, reg);
      RowDocIds(prev, l, |ls|, reg, id);
    } else {
      FamilyKnown(prefix, id, reg);
      NoDocIds(prefix, id, l.familyName);
    }
  }

  /** A family ID no line supplies has no document IDs. */
  lemma {:induction false} NoDocIds(ls: seq<Line>, id: string, name: string)
    requires !HasFamily(ls, id)
    ensures DocIdsNamed(ls, id, name) == []
    decreases |ls|
  {
    if |ls| > 0 {
      var prefix := ls[..|ls| - 1];
      assert forall k :: 0 <= k < |prefix| ==> prefix[k] == ls[k];
      NoDocIds(prefix, id, name);
      assert ls[|ls| - 1].familyId != Some(id);
    }
  }

  // ---------------------------------------------------------------------
  // Family IDs per action

  /** The family IDs supplied by lines whose raw `ID` is `action`. */
  function ActionFamilies(ls: seq<Line>, action: string): set<string> {
    set k | 0 <= k < |ls| && ls[k].actionKey == action && ls[k].familyId.Some? :: ls[k].familyId.value
  }

  /** `action_id_to_family_id` in closed form: a non-empty action ID maps
      to the family IDs its lines supply, and it is a key exactly when it
      has one; the empty ID is never a key. */
  lemma {:induction false} ActionsKnown(ls: seq<Line>, action: string, reg: Registration)
    ensures action != "" ==> FamiliesOf(Scan(ls, reg).actions, action) == ActionFamilies(ls, action)
    ensures action in Scan(ls, reg).actions <==> action != "" && ActionFamilies(ls, action) != {}
    decreases |ls|
  {
    if |ls| > 0 {
      var prefix := ls[..|ls| - 1];
      ActionsKnown(prefix, action, reg);
      ScanLast(ls, reg);
      RowActions(Scan(prefix, reg), ls[|ls| - 1], |ls|, reg);
      ActionFamiliesStep(ls, action);
    }
  }

  /** One more line adds its family ID to its action's set. */
  lemma ActionFamiliesStep(ls: seq<Line>, action: string)
    requires |ls| > 0
    ensures var l := ls[|ls| - 1];
      ActionFamilies(ls, action) == ActionFamilies(ls[..|ls| - 1], action)
        + if l.actionKey == action && l.familyId.Some? then {l.familyId.value} else {}
  {
    var prefix := ls[..|ls| - 1];
    assert forall k :: 0 <= k < |prefix| ==> prefix[k] == ls[k];
  }

  // ---------------------------------------------------------------------
  // The events pass

  /** The events grouped by ambiguous action, and how many events named a
      known action. */
  datatype EventScan = EventScan(ambiguous: map<string, seq<Row>>, identified: nat)

  /** `row.get("Eventable Id", "")`, unstripped. */
  function EventKey(row: Row): string {
    Field(row, "Eventable Id")
  }

  /** The event names an action the DFC sheet knows. */
  predicate Known(actions: map<string, set<string>>, key: string) {
    key != "" && key in actions
  }

  /** The event names an action split across more than one family. */
  predicate IsAmbiguous(actions: map<string, set<string>>, key: string) {
    Known(actions, key) && |actions[key]| > 1
  }

  /** `ambiguous_event_info[action]` of a `defaultdict(list)`. */
  function EventsOf(m: map<string, seq<Row>>, action: string): seq<Row> {
    if action in m then m[action] else []
  }

  /** One event row. */
  function EventStep(s: EventScan, row: Row, actions: map<string, set<string>>): (r: EventScan)
    ensures r.identified == s.identified + if Known(actions, EventKey(row)) then 1 else 0
    ensures forall a :: a != EventKey(row) || !IsAmbiguous(actions, a) ==> (a in r.ambiguous <==> a in s.ambiguous) && EventsOf(r.ambiguous, a) == EventsOf(s.ambiguous, a)
    ensures IsAmbiguous(actions, EventKey(row)) ==>
      EventKey(row) in r.ambiguous && r.ambiguous[EventKey(row)] == EventsOf(s.ambiguous, EventKey(row)) + [row]
  {
    var key := EventKey(row);
    if !Known(actions, key) then s
    else if |actions[key]| > 1 then EventScan(s.ambiguous[key := EventsOf(s.ambiguous, key) + [row]], s.identified + 1)
    else s.(identified := s.identified + 1)
  }

  /** The loop over the event rows. */
  function ScanEvents(rows: seq<Row>, actions: map<string, set<string>>): EventScan {
    if |rows| == 0 then EventScan(map[], 0)
    else EventStep(ScanEvents(rows[..|rows| - 1], actions), rows[|rows| - 1], actions)
  }

  /** `_read_existing_event_data`: the schema `assert`, then the loop. */
  function ReadExistingEventData(sheet: Sheet, actions: map<string, set<string>>): (r: Result<EventScan, Failure>)
    ensures r.Failure? <==> !HasColumns(EventColumns, sheet.header)
    ensures r.Failure? ==> r.error == SchemaError(MissingColumns(EventColumns, sheet.header)) && r.error.missing != {}
    ensures r.Success? ==> r.value == ScanEvents(sheet.rows, actions)
  {
    HasColumnsIff(EventColumns, sheet.header);
    if !HasColumns(EventColumns, sheet.header) then Failure(SchemaError(MissingColumns(EventColumns, sheet.header)))
    else Success(ScanEvents(sheet.rows, actions))
  }

  /** The rows whose `Eventable Id` is `action`, in input order. */
  function EventsFor(rows: seq<Row>, action: string): seq<Row> {
    if |rows| == 0 then []
    else (if EventKey(rows[0]) == action then [rows[0]] else []) + EventsFor(rows[1..], action)
  }

  /** Filtering one more row at the end. */
  lemma {:induction false} EventsForSnoc(rows: seq<Row>, action: string)
    requires |rows| > 0
    ensures EventsFor(rows, action) ==
      EventsFor(rows[..|rows| - 1], action) + if EventKey(rows[|rows| - 1]) == action then [rows[|rows| - 1]] else []
    decreases |rows|
  {
    if |rows| > 1 {
      var tail := rows[1..];
      EventsForSnoc(tail, action);
      assert tail[..|tail| - 1] == rows[..|rows| - 1][1..];
      assert tail[|tail| - 1] == rows[|rows| - 1];
    } else {
      assert rows[..0] == [];
      assert rows[1..] == [];
    }
  }

  /** An event joins `ambiguous_event_info[action]` exactly when it names
      that action and the action is ambiguous; each action's events keep
      their input order, and only actions with an event are keys. */
  lemma {:induction false} AmbiguousEvents(rows: seq<Row>, actions: map<string, set<string>>, action: string)
    ensures EventsOf(ScanEvents(rows, actions).ambiguous, action) ==
      if IsAmbiguous(actions, action) then EventsFor(rows, action) else []
    ensures action in ScanEvents(rows, actions).ambiguous <==> IsAmbiguous(actions, action) && EventsFor(rows, action) != []
    decreases |rows|
  {
    if |rows| > 0 {
      var prefix := rows[..|rows| - 1];
      AmbiguousEvents(prefix, actions, action);
      EventsForSnoc(rows, action);
    }
  }

  /** The rows that name a known action. */
  function IdentifiedRows(rows: seq<Row>, actions: map<string, set<string>>): set<nat> {
    set k | 0 <= k < |rows| && Known(actions, EventKey(rows[k]))
  }

  /** `actions_identified` counts the rows that name a known action. */
  lemma {:induction false} IdentifiedCount(rows: seq<Row>, actions: map<string, set<string>>)
    ensures ScanEvents(rows, actions).identified == |IdentifiedRows(rows, actions)|
    decreases |rows|
  {
    if |rows| > 0 {
      var last := |rows| - 1;
      var prefix := rows[..last];
      IdentifiedCount(prefix, actions);
      if Known(actions, EventKey(rows[last])) {
        IdentifiedAdded(rows, actions);
        CardAddOne(IdentifiedRows(prefix, actions), last);
      } else {
        IdentifiedSame(rows, actions);
      }
    }
  }

  /** A last row naming a known action is one more identified row. */
  lemma IdentifiedAdded(rows: seq<Row>, actions: map<string, set<string>>)
    requires |rows| > 0 && Known(actions, EventKey(rows[|rows| - 1]))
    ensures ScanEvents(rows, actions).identified == ScanEvents(rows[..|rows| - 1], actions).identified + 1
    ensures IdentifiedRows(rows, actions) == IdentifiedRows(rows[..|rows| - 1], actions) + {|rows| - 1}
    ensures |rows| - 1 !in IdentifiedRows(rows[..|rows| - 1], actions)
  {
    var prefix := rows[..|rows| - 1];
    assert forall k :: 0 <= k < |prefix| ==> prefix[k] == rows[k];
  }

  /** Any other last row leaves the count alone. */
  lemma IdentifiedSame(rows: seq<Row>, actions: map<string, set<string>>)
    requires |rows| > 0 && !Known(actions, EventKey(rows[|rows| - 1]))
    ensures ScanEvents(rows, actions).identified == ScanEvents(rows[..|rows| - 1], actions).identified
    ensures IdentifiedRows(rows, actions) == IdentifiedRows(rows[..|rows| - 1], actions)
  {
    var prefix := rows[..|rows| - 1];
    assert forall k :: 0 <= k < |prefix| ==> prefix[k] == rows[k];
  }

  lemma CardAddOne(a: set<nat>, x: nat)
    requires x !in a
    ensures |a + {x}| == |a| + 1
  {
  }

  /** What the script hands to its writer. */
  datatype Grouped = Grouped(ambiguous: map<string, seq<Row>>, actions: map<string, set<string>>)

  /** `_process_csvs`: the DFC scan as written, then the events scan on
      the action map it built. */
  function ProcessCsvs(dfc: Sheet, events: Sheet): (r: Result<Grouped, Failure>)
    ensures r.Failure? <==> ReadEventsDfcData(dfc).Failure? || !HasColumns(EventColumns, events.header)
    ensures r.Failure? && ReadEventsDfcData(dfc).Failure? ==> r.error == ReadEventsDfcData(dfc).error
    ensures r.Success? ==>
      && r.value.actions == ReadEventsDfcData(dfc).value.actions
      && r.value.ambiguous == ScanEvents(events.rows, r.value.actions).ambiguous
  {
    var st :- ReadEventsDfcData(dfc);
    var ev :- ReadExistingEventData(events, st.actions);
    Success(Grouped(ev.ambiguous, st.actions))
  }

  /** End to end: an event is listed under action `a` exactly when it
      names `a` and the DFC rows with ID `a` supply more than one family
      ID; the listed events keep their order. */
  lemma GroupedEvents(dfc: Sheet, events: Sheet, action: string)
    requires ProcessCsvs(dfc, events).Success?
    ensures EventsOf(ProcessCsvs(dfc, events).value.ambiguous, action) ==
      if action != "" && |ActionFamilies(Lines(dfc.rows), action)| > 1 then EventsFor(events.rows, action) else []
  {
    var actions := ProcessCsvs(dfc, events).value.actions;
    ActionsKnown(Lines(dfc.rows), action, DocSlugRegistered);
    AmbiguousEvents(events.rows, actions, action);
  }

  // ---------------------------------------------------------------------
  // The registration at line 153

  /** A family's first line claiming slug `s`, then a document claiming
      the same slug. */
  const ClashLines: seq<Line> := [
    Line("Law", "1", "Act", "Family", None, None, Some("f1"), Some("s"), "1"),
    Line("Law", "2", "Act", "Other", Some("s"), None, None, None, "2")]

  /** As written, the scan accepts a document slug equal to an earlier
      family's slug, so two claimed slugs coincide; registering the family
      slug flags the second row. */
  lemma DocSlugRegisteredMissesClash()
    ensures Scan(ClashLines, DocSlugRegistered).errors == []
    ensures !Distinct(Claims(ClashLines))
    ensures Scan(ClashLines, FamilySlugRegistered).errors == [RowError(2, DuplicateDocumentSlug)]
  {
    var ls := ClashLines;
    assert ls[..1][..0] == [] && ls[..1][0] == ls[0];
    assert ls[..1] == [ls[0]];
    assert FirstOfFamily(ls, 0);
    assert FirstOfFamily(ls[..1], 0) && LineClaims(ls[..1], 0) == ["s"];
    assert Claims(ls[..1]) == ["s"];
    assert LineClaims(ls, 1) == ["s"];
    assert Claims(ls)[0] == Claims(ls)[1];
  }

  /** A family's first line with no document slug, then a document slug
      cell of spaces only (read as the empty slug). */
  const BlankAfterFamilyLines: seq<Line> := [
    Line("Law", "1", "Act", "Family", None, None, Some("f1"), Some("s"), "1"),
    Line("Law", "2", "Act", "Other", Some(""), None, None, None, "2")]

  /** As written, the first line registers the empty document slug, so a
      later blank-but-present document slug is flagged as a duplicate;
      registering the family slug accepts it. */
  lemma DocSlugRegisteredFlagsBlank()
    ensures Scan(BlankAfterFamilyLines, DocSlugRegistered).errors == [RowError(2, DuplicateDocumentSlug)]
    ensures Scan(BlankAfterFamilyLines, FamilySlugRegistered).errors == []
  {
    var ls := BlankAfterFamilyLines;
    assert ls[..1][..0] == [] && ls[..1][0] == ls[0];
    assert ls[..1] == [ls[0]];
    assert Scan(ls[..1], DocSlugRegistered).slugs == {""};
    assert Scan(ls[..1], FamilySlugRegistered).slugs == {"s"};
  }

  /** With the family slug registered, a clean pass never lets two claimed
      slugs coincide. */
  lemma EventsDfcSlugsDistinct(sheet: Sheet)
    requires ReadEventsDfcDataCorrected(sheet).Success?
    ensures Distinct(Claims(Lines(sheet.rows)))
    ensures ReadEventsDfcDataCorrected(sheet).value.slugs == Elems(Claims(Lines(sheet.rows)))
  {
    CleanClaimsDistinct(Lines(sheet.rows));
    SlugsClaimed(Lines(sheet.rows));
  }
}
