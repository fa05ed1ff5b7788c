# navigator-scripts: identifier and slug assignment, in Dafny

This project models the pure core of the navigator data-preparation scripts:

- `add_ids_and_slugs/main.py` (CCLW). It makes two passes over a
  documents-families-collections (DFC) sheet. The first pass checks every
  row and collects the slugs, document IDs and families already assigned;
  any flagged row ends the run with status 10. The second pass fills in each
  row's CPR document ID, document slug, family ID, family slug and collection
  ID. It keeps values a row already has, reuses family and collection IDs
  within an action, and draws new slugs with `_generate_slug`.
- `add_ids_and_slugs/UNFCCC/main.py`. The same two passes for UNFCCC
  submissions. Families are keyed by name, generated IDs are numbered from a
  row offset, and every row is marked `PUBLISHED`.
- `add_ids_and_slugs/main_events.py`. It scans the DFC sheet with the CCLW
  checks, maps each action ID to its family IDs, and lists the events of
  actions that were split into several families.
- `scripts/ingest_dfc/utils.py`. The pure string handling of the ingest:
  the column check, the header-to-field normaliser `_key`, the per-type
  cell parser `_parse_str`, `get_first_url` and `_sanitize`.

The modules follow the scripts:

| module | file | role |
|---|---|---|
| `Wrappers` | wrappers.dfy | `Option`/`Result` |
| `Strings` | strings.dfy | Python `strip`, `lower`, `split`, `join`, `replace`, `int()` and `str(int)` |
| `Table` | table.dfy | rows as maps, the column gate, diagnostics, exit codes |
| `Registry` | registry.dfy | the nested `defaultdict` lookups of main.py |
| `Slugs` | slugs.dfy | `_generate_slug` |
| `CclwScan`, `CclwGenerate` | cclw_scan.dfy, cclw_generate.dfy | main.py |
| `Events` | events.dfy | main_events.py |
| `UnfcccScan`, `UnfcccGenerate` | unfccc_scan.dfy, unfccc_generate.dfy | UNFCCC/main.py |
| `IngestUtils` | ingest_utils.dfy | scripts/ingest_dfc/utils.py |

The outside world enters as parameters. A CSV file is a `Sheet`: its
header and its rows, each row a map from column name to cell text.
`slugify` and the stream of `uuid4()` renderings are fields of an `Env`.
`print` is dropped. `sys.exit`, failed `assert`s and raised exceptions
become a `Failure` value; `ExitCode` maps each failure to the process exit
status.

## Model

| member | source | states |
|---|---|---|
| Table.MissingColumns | add_ids_and_slugs/main.py:65-66 | a column is reported missing exactly when it is required and absent from the header |
| Table.HasColumnsIff | add_ids_and_slugs/main.py:65-68 | the header gate passes exactly when no required column is missing |
| Table.ExitCode | add_ids_and_slugs/main.py:65-146 | a run ends with status 10 exactly when rows were flagged; a missing column (`sys.exit(1)`) and every uncaught exception (slug exhaustion, the family `KeyError`, a failed `assert`) end with status 1 |
| Registry.Record | add_ids_and_slugs/main.py:201-213 | `lookup[action][name] = value` sets that key, leaves every other key as it was, and adds the name to the action's names |
| Registry.ReplayLatest | add_ids_and_slugs/main.py:206-213 | after a sequence of recordings, a key holds the value of its last recording |
| Registry.ReplayUnseen | add_ids_and_slugs/main.py:206 | a key never recorded is absent |
| Registry.ReplayGroupKeys | add_ids_and_slugs/main.py:201-202 | `len(lookup[action])` counts exactly the distinct names recorded for the action |
| Slugs.GenerateSlug | add_ids_and_slugs/main.py:149-160 | the result is a candidate `{base}_{suffix}` absent from the lookup; it fails exactly when all 101 candidates the loop may try are taken |
| Slugs.GenerateSlugLoop | add_ids_and_slugs/main.py:149-160 | the while loop as written returns what `GenerateSlug` specifies |
| Slugs.AllTaken | add_ids_and_slugs/main.py:156-159 | when every candidate is taken, the generator raises instead of looping forever or returning a taken slug |
| Slugs.FirstFreeAt | add_ids_and_slugs/main.py:151-155 | the generator returns the first free candidate and consumes the draws up to it |
| Slugs.NextSlug | add_ids_and_slugs/UNFCCC/main.py:146-163 | one call inside a run; the UNFCCC version adds the slug it returns to the lookup, main.py's does not |
| Slugs.SlugFor | add_ids_and_slugs/main.py:194-197 | a row's own slug is kept without drawing; otherwise one is generated; the result is never empty |
| Slugs.DrawnSlug | add_ids_and_slugs/UNFCCC/main.py:153-163 | a drawn slug is built from the base and a draw, is absent from the lookup, and, when registering, is added to it |
| CclwScan.FieldErrors | add_ids_and_slugs/main.py:74-89 | a row is flagged for a blank category, ID, title or family name exactly when that cell strips to nothing |
| CclwScan.CheckDocSlug | add_ids_and_slugs/main.py:92-100 | a supplied document slug is flagged if already known; otherwise it is registered |
| CclwScan.CheckDocId | add_ids_and_slugs/main.py:103-109 | a supplied document ID is flagged if already known; otherwise it is mapped to the row's document slug |
| CclwScan.CheckFamily | add_ids_and_slugs/main.py:112-139 | a known family ID is checked for the same name; a new one has its slug checked for uniqueness, and its name and slug are stored |
| CclwScan.ScanRow | add_ids_and_slugs/main.py:72-143 | a row's diagnostics follow the diagnostics of the rows before it |
| CclwScan.ReadExistingData | add_ids_and_slugs/main.py:54-146 | exits 1 exactly when a required column is missing, naming them; otherwise exits 10 with every row's diagnostics, or succeeds when there are none |
| CclwScan.ScanErrorsWithin | add_ids_and_slugs/main.py:72-73 | every diagnostic names a row that was read |
| CclwScan.FlaggedAt | add_ids_and_slugs/main.py:72-143 | a diagnostic for row i comes from row i's own checks, run on the lookups the earlier rows left |
| CclwScan.BlankFieldsFlagged | add_ids_and_slugs/main.py:74-89 | whatever the other rows hold, each row is flagged for each blank field exactly when that field is blank |
| CclwScan.DocIdFlagged | add_ids_and_slugs/main.py:103-107 | a row is flagged for its document ID exactly when an earlier row supplied the same ID |
| CclwScan.FamilyNameFlagged | add_ids_and_slugs/main.py:114-122 | a row is flagged for its family name exactly when the family's first row gave another name |
| CclwScan.FamilyFromFirst | add_ids_and_slugs/main.py:123-139 | a family's stored name and slug are those of its first row; later rows never overwrite them |
| CclwScan.DocIdFromFirst | add_ids_and_slugs/main.py:108-109 | a document ID maps to the document slug of the first row supplying it |
| CclwScan.SlugsClaimed | add_ids_and_slugs/main.py:100-134 | the slug set is exactly the document slugs and first-row family slugs the rows claim |
| CclwScan.DocSlugFlagged | add_ids_and_slugs/main.py:92-98 | a document slug is flagged exactly when an earlier row claimed it |
| CclwScan.FamilySlugFlagged | add_ids_and_slugs/main.py:126-132 | a family's first slug is flagged exactly when an earlier row claimed it or it equals the row's own document slug |
| CclwScan.CleanClaimsDistinct | add_ids_and_slugs/main.py:92-146 | when no row is flagged, no slug is claimed twice |
| CclwScan.DocSlugsDiffer | add_ids_and_slugs/main.py:92-98 | under either registration, a clean pass never accepts the same document slug twice |
| CclwScan.DfcSlugsDistinct | add_ids_and_slugs/main.py:54-146 | when the first pass accepts a sheet, its claimed slugs are distinct and are exactly the slugs collected |
| CclwGenerate.FamilyIdFor | add_ids_and_slugs/main.py:205-213 | the family ID is never empty |
| CclwGenerate.CollectionFor | add_ids_and_slugs/main.py:227-242 | the collection ID is never empty (`N/A` without a collection) |
| CclwGenerate.GenRow | add_ids_and_slugs/main.py:181-255 | one row adds exactly one resolved row, keeps the earlier ones, and never shrinks the slug lookup; it fails only when slugs run out |
| CclwGenerate.Generate | add_ids_and_slugs/main.py:181-257 | one resolved row per input row; it fails only when slugs run out |
| CclwGenerate.Emit | add_ids_and_slugs/main.py:244-255 | the output row is the input row with the five CPR columns set and every other column unchanged |
| CclwGenerate.Process | add_ids_and_slugs/main.py:163-257 | a first-pass failure is the run's failure; otherwise each output row is its input row with the values the second pass resolved |
| CclwGenerate.RowLookups | add_ids_and_slugs/main.py:183-242 | a row's IDs and exactly what it records in the family-ID, family-slug and collection lookups |
| CclwGenerate.RowSlugs | add_ids_and_slugs/main.py:194-224 | a row's slugs are its own or freshly drawn ones absent from the lookup; without registering the lookup is unchanged |
| CclwGenerate.RowKept | add_ids_and_slugs/main.py:185-242 | values a row already has are written back; a missing document ID becomes `CCLW.{category}.{action}.{document number}`; no collection gives `N/A` |
| CclwGenerate.IdsNonEmpty | add_ids_and_slugs/main.py:207-240 | every output row has a family ID and a collection ID |
| CclwGenerate.FamilyIdReused | add_ids_and_slugs/main.py:206-213 | a row without a family ID takes the ID of the last earlier row of its action and family name |
| CclwGenerate.FamilyIdNumbered | add_ids_and_slugs/main.py:202-211 | the first row of a family without an ID gets `CCLW.family.{action}.{n}`, n counting the action's earlier family names |
| CclwGenerate.FamilySlugNonEmpty | add_ids_and_slugs/main.py:215-224 | every output row has a family slug |
| CclwGenerate.FamilySlugReused | add_ids_and_slugs/main.py:216-224 | a row without a family slug takes the slug of the last earlier row of its family, without drawing |
| CclwGenerate.FamilySlugDrawn | add_ids_and_slugs/main.py:218-222 | the first row of a family without a slug draws one from the family name, outside the slugs the first pass collected |
| CclwGenerate.DocSlugDrawn | add_ids_and_slugs/main.py:194-197 | a row without a document slug draws one from its title, outside the slugs the first pass collected |
| CclwGenerate.CollectionReused | add_ids_and_slugs/main.py:230-242 | a row naming a collection without its ID takes the ID of the last earlier row naming it |
| CclwGenerate.CollectionNumbered | add_ids_and_slugs/main.py:235-240 | the first row naming a collection gets `CCLW.collection.{action}.{n}`, n counting the action's earlier collection names |
| CclwGenerate.DocSlugKept | add_ids_and_slugs/main.py:194-197 | with a registering generator, a drawn document slug is new at its row and known from the next row on |
| CclwGenerate.DocSlugsDistinct | add_ids_and_slugs/main.py:194-197 | with a registering generator, no two rows get the same document slug |
| CclwGenerate.ProcessCsvSlugsDistinct | add_ids_and_slugs/main.py:163-257 | with a registering generator, the output's document slugs are pairwise distinct |
| CclwGenerate.AsWrittenDuplicateSlugs | add_ids_and_slugs/main.py:149-160 | as written, two rows with the same title and draws sharing four characters get the same document slug |
| Events.FamilyDocIds | add_ids_and_slugs/main_events.py:124-159 | a family's `Document IDs` are those of exactly the rows giving its ID under its first name, in order |
| Events.ActionsKnown | add_ids_and_slugs/main_events.py:161-162 | a non-empty action ID maps to exactly the family IDs its rows supply; the empty ID is never a key |
| Events.EventStep | add_ids_and_slugs/main_events.py:182-187 | an event counts when it names a known action and is listed under that action when the action has several families |
| Events.ReadExistingEventData | add_ids_and_slugs/main_events.py:168-188 | the schema `assert` fails exactly when an events column is missing; otherwise every event row is scanned |
| Events.AmbiguousEvents | add_ids_and_slugs/main_events.py:181-187 | an action's listed events are exactly its events, in order, when it is ambiguous, and none otherwise |
| Events.IdentifiedCount | add_ids_and_slugs/main_events.py:179-185 | `actions_identified` is the number of event rows naming a known action |
| Events.ReadEventsDfcData | add_ids_and_slugs/main_events.py:68-165 | the DFC pass as written fails exactly on a missing column (naming the missing set) or on a flagged row (with every row's diagnostics); otherwise it returns the lookups of a scan that registers a new family's row's document slug |
| Events.ProcessCsvs | add_ids_and_slugs/main_events.py:191-214 | with the DFC pass as written, the run fails exactly when either sheet fails its pass, with the DFC failure first; otherwise it returns the DFC action map and the events grouped on it |
| Events.GroupedEvents | add_ids_and_slugs/main_events.py:191-214 | end to end, an event is listed under action a exactly when it names a and the DFC rows with ID a supply more than one family ID |
| Events.DocSlugRegisteredMissesClash | add_ids_and_slugs/main_events.py:144-153 | as written, a document slug equal to an earlier family slug passes the check, so two claimed slugs coincide |
| Events.DocSlugRegisteredFlagsBlank | add_ids_and_slugs/main_events.py:101-153 | as written, a family row without a document slug registers the empty slug, so a later document slug cell of spaces only is flagged as a duplicate; registering the family slug accepts it |
| Events.EventsDfcSlugsDistinct | add_ids_and_slugs/main_events.py:68-165 | registering the family slug it checked, an accepted DFC sheet claims no slug twice |
| UnfcccScan.Flags | add_ids_and_slugs/UNFCCC/main.py:69-129 | a row's diagnostics are exactly the checks it fails against the lookups it meets |
| UnfcccScan.ReadExistingData | add_ids_and_slugs/UNFCCC/main.py:49-143 | exits 1 exactly on a missing column; otherwise exits 10 with the rows' diagnostics, or succeeds with the lookups |
| UnfcccScan.RowFlagged | add_ids_and_slugs/UNFCCC/main.py:67-140 | a row gets a diagnostic of a kind exactly when it fails that check against what the earlier rows left |
| UnfcccScan.FieldsFlagged | add_ids_and_slugs/UNFCCC/main.py:69-92 | blank category, title or family name, and a document ID that does not split into four parts ending in `0`, are flagged from the row alone |
| UnfcccScan.KnownSlugs | add_ids_and_slugs/UNFCCC/main.py:137-140 | the slug set is exactly the document and family slugs the rows give |
| UnfcccScan.KnownDocIds | add_ids_and_slugs/UNFCCC/main.py:102-107 | the known document IDs are exactly the rows' non-empty ones |
| UnfcccScan.KnownFamily | add_ids_and_slugs/UNFCCC/main.py:131-136 | a family name's record holds the ID and slug of its first row |
| UnfcccScan.DocSlugFlagged | add_ids_and_slugs/UNFCCC/main.py:95-99 | a document slug is flagged exactly when an earlier row gave it as document or family slug |
| UnfcccScan.DocIdFlagged | add_ids_and_slugs/UNFCCC/main.py:102-105 | a document ID is flagged exactly when an earlier row has it |
| UnfcccScan.FamilyFlagged | add_ids_and_slugs/UNFCCC/main.py:110-129 | a later row of a family giving an ID must give the first row's ID, and a slug it gives must be the first row's slug |
| UnfcccScan.FirstRowUnflagged | add_ids_and_slugs/UNFCCC/main.py:110-136 | the first row of a family is never in conflict with it |
| UnfcccScan.CleanDocSlugsDiffer | add_ids_and_slugs/UNFCCC/main.py:95-99 | an accepted sheet never repeats a document slug |
| UnfcccGenerate.FamilyIdFor | add_ids_and_slugs/UNFCCC/main.py:208-215 | a row needing its family's record fails exactly when the name has none (the `KeyError`); the set of family names is unchanged |
| UnfcccGenerate.FamilySlugFor | add_ids_and_slugs/UNFCCC/main.py:217-225 | the same for family slugs; the slug lookup only grows |
| UnfcccGenerate.GenRow | add_ids_and_slugs/UNFCCC/main.py:185-237 | one row adds one resolved row, keeps the earlier ones, and grows the slug lookup |
| UnfcccGenerate.Generate | add_ids_and_slugs/UNFCCC/main.py:185-237 | one resolved row per input row; when every family name has a record it fails only when slugs run out |
| UnfcccGenerate.Emit | add_ids_and_slugs/UNFCCC/main.py:227-236 | the output row is the input row with the four CPR values and status `PUBLISHED`, every other column unchanged |
| UnfcccGenerate.ProcessCsv | add_ids_and_slugs/UNFCCC/main.py:166-240 | a first-pass failure is the run's failure; otherwise each output row is its input row with the resolved values |
| UnfcccGenerate.ProcessCsvFailures | add_ids_and_slugs/UNFCCC/main.py:166-240 | the `KeyError` never happens: a run fails only on the header, on flagged rows or on exhausted slugs |
| UnfcccGenerate.DocIdAt | add_ids_and_slugs/UNFCCC/main.py:184-194 | a row's document ID is its own, else `CCLW.{author type}.{offset+k+1}.0` |
| UnfcccGenerate.GeneratedDocIdsDiffer | add_ids_and_slugs/UNFCCC/main.py:189-191 | two rows without a document ID are given different ones |
| UnfcccGenerate.FamilyIdTemplateNumbers | add_ids_and_slugs/UNFCCC/main.py:212 | two generated family IDs are equal only for equal indices |
| UnfcccGenerate.FamilyIdAt | add_ids_and_slugs/UNFCCC/main.py:208-215 | a row without a family ID gets its family's recorded ID, else the one generated at the first row of its family without one |
| UnfcccGenerate.FamilyIdShared | add_ids_and_slugs/UNFCCC/main.py:208-215 | rows of one family without a family ID all get the same one |
| UnfcccGenerate.FamilyIdsDiffer | add_ids_and_slugs/UNFCCC/main.py:208-215 | two families with no recorded ID never get the same generated ID |
| UnfcccGenerate.FamilySlugAt | add_ids_and_slugs/UNFCCC/main.py:217-225 | a row without a family slug gets its family's recorded slug, else the one drawn at the first row of its family without one |
| UnfcccGenerate.FamilySlugShared | add_ids_and_slugs/UNFCCC/main.py:217-225 | rows of one family without a family slug all get the same one |
| UnfcccGenerate.FamilySlugDrawn | add_ids_and_slugs/UNFCCC/main.py:219-223 | a family's drawn slug is built from its name and lies outside the first pass's slugs |
| UnfcccGenerate.DocSlugAt | add_ids_and_slugs/UNFCCC/main.py:199-202 | a row's document slug is its own, else one drawn from its title that is new at that row and registered from then on |
| UnfcccGenerate.DocSlugsDistinct | add_ids_and_slugs/UNFCCC/main.py:199-202 | no two rows get the same document slug |
| UnfcccGenerate.GivenClaimedByScan | add_ids_and_slugs/UNFCCC/main.py:95-140 | an accepted sheet's own document slugs are distinct and all in the collected slugs |
| UnfcccGenerate.ProcessCsvSlugsDistinct | add_ids_and_slugs/UNFCCC/main.py:166-240 | the output's document slugs are pairwise distinct |
| UnfcccGenerate.ProcessCsvRow | add_ids_and_slugs/UNFCCC/main.py:189-236 | an output row has its own document ID or the generated one, status `PUBLISHED`, and every other column unchanged |
| IngestUtils.ValidateCsvColumns | scripts/ingest_dfc/utils.py:68-72 | the check passes exactly when no required column is missing |
| IngestUtils.ExtraColumnsAllowed | scripts/ingest_dfc/utils.py:71-72 | extra columns never make a valid header invalid |
| IngestUtils.MissingColumnRejected | scripts/ingest_dfc/utils.py:71-72 | a header lacking a required column is invalid |
| IngestUtils.Key | scripts/ingest_dfc/utils.py:153-155 | a field name has no space and no `?` |
| IngestUtils.KeyWords | scripts/ingest_dfc/utils.py:153-155 | words joined by a space key to their keys joined by `_` |
| IngestUtils.KeyLowered | scripts/ingest_dfc/utils.py:153-155 | a header with no space, `?` or `y` keys to its lower-case form |
| IngestUtils.KeyPlural | scripts/ingest_dfc/utils.py:153-155 | a stem followed by `y/ies?` keys to the stem followed by `ies` |
| IngestUtils.KeyOfFamilyFlag | scripts/ingest_dfc/utils.py:153-155 | `Create new family/ies?` keys to `create_new_families` |
| IngestUtils.KeySnake | scripts/ingest_dfc/utils.py:153-155 | a header without `?` or `/` keys to its snake case: lower case with `_` for each space, `y` kept |
| IngestUtils.KeyAsked | scripts/ingest_dfc/utils.py:153-155 | a header whose only `?` ends it keys to the snake case of the rest |
| IngestUtils.KeyOfFamilyName | scripts/ingest_dfc/utils.py:153-155 | `Family name` keys to `family_name`: a `y` not followed by `/` survives |
| IngestUtils.Kept | scripts/ingest_dfc/utils.py:140 | the kept entries are non-empty and stripped, and are exactly the non-blank parts after stripping |
| IngestUtils.ListItems | scripts/ingest_dfc/utils.py:139-140 | a list cell's entries are non-empty and stripped, and are exactly the stripped non-blank `;`-parts |
| IngestUtils.ListItemsJoin | scripts/ingest_dfc/utils.py:139-140 | joining clean entries with `;` and parsing gives the entries back |
| IngestUtils.ParseStr | scripts/ingest_dfc/utils.py:134-151 | an unknown key passes the value through; parsing fails exactly for an unhandled type or a non-empty non-integer `int` cell; each type yields its kind of value |
| IngestUtils.ParseStrText | scripts/ingest_dfc/utils.py:145-149 | a `str` cell spelling `n/a` in any case becomes `n/a`; any other text is kept |
| IngestUtils.ParseStrTextIdempotent | scripts/ingest_dfc/utils.py:145-149 | parsing a parsed `str` cell again changes nothing |
| IngestUtils.ParseStrNumber | scripts/ingest_dfc/utils.py:142-143 | an `int` cell holding the decimal text of n parses to n; an empty one to 0 |
| IngestUtils.ParseStrItems | scripts/ingest_dfc/utils.py:139-140 | a `list[str]` cell of clean entries joined by `;` parses to those entries |
| IngestUtils.GetFirstUrl | scripts/ingest_dfc/utils.py:157-168 | fails exactly when the cell contains `;`; otherwise the result is the prefix up to the first `|`, and contains no `|` |
| IngestUtils.GetFirstUrlOf | scripts/ingest_dfc/utils.py:163-168 | a URL followed by `|` and further fields gives back the URL |
| IngestUtils.GetFirstUrlPlain | scripts/ingest_dfc/utils.py:163-168 | a cell with no `|` and no `;` is its own first URL |
| IngestUtils.Sanitize | scripts/ingest_dfc/utils.py:214-229 | a class text gives a name without `.`; other text up to 80 characters is unchanged; longer text becomes its first 80 characters plus `...`, 83 in all |
| IngestUtils.SanitizeClass | scripts/ingest_dfc/utils.py:224-226 | `<class 'path.Name'>` gives `Name` |

## Left out

- File I/O, `csv.DictReader`/`DictWriter`, `print`, `main()` and the
  `_write_file` functions: the model takes the parsed sheet and returns the
  output rows.
- `slugify` and `uuid4` are parameters (`Env`): the model does not define
  how `slugify` transforms text or what a UUID looks like.
- `lower()` and `strip()`: `lower()` maps ASCII letters only; `strip()`
  uses Python's whitespace set as listed in strings.dfy.
- `int()`: ASCII digits, single underscores between digits, an optional sign
  and surrounding whitespace. Non-ASCII digits, which Python also accepts,
  are not modelled.
- `DfcRow.from_row`, `field_info` and the pydantic validation of a
  `DfcRow`: `field_info` is the constant `DfcFields`, and the dataclass
  itself, with its extra-field and type checks, is not part of this model.
- `get_or_create` and `to_dict`: they work against the database session and
  ORM objects.
- `PublicationDateAccuracy` and `UNDEFINED_DATA_TIME`: constants with no
  logic.
- The two-pass structure re-reads the same file. The model reads the sheet
  once and hands the same rows to both passes.
- The ordering of the `Family IDs` written by main_events.py's `_write_file`
  depends on Python set iteration order and is not modelled.
- IngestUtils.KeySnake, KeyAsked and KeyOfFamilyFlag: every required
  column has one of their three shapes (no `?` or `/`; one trailing `?`;
  `Create new family/ies?`), so every key is given by one of them. The model
  does not evaluate the 35 keys one by one against `DfcFields`, so it does
  not prove that `from_row` finds a field for each column.

## Findings

| source | as written | input that shows it | evidently intended | confidence | as-written member | corrected member |
|---|---|---|---|---|---|---|
| add_ids_and_slugs/main.py:149-160 | `_generate_slug` never adds the slug it returns to `existing_slugs`, so later draws do not avoid it | two rows with no CPR slugs and the same title, and two `uuid4()` draws with the same first four characters: both rows get `{title}_abcd` | register each generated slug, as UNFCCC/main.py:162 does, so generated slugs are unique | not executed | CclwGenerate.AsWrittenDuplicateSlugs | CclwGenerate.DocSlugsDistinct |
| add_ids_and_slugs/main_events.py:153 | after checking a new family's slug, the scan registers `cpr_document_slug` instead of `cpr_family_slug` | row 1 gives family `f1` the slug `s` and no document slug; row 2 gives document slug `s`: no diagnostic | register the family slug, as main.py:134 does, so that row 2 is flagged | not executed | Events.DocSlugRegisteredMissesClash | Events.EventsDfcSlugsDistinct |
