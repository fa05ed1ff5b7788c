/** The pure string handling of scripts/ingest_dfc/utils.py: the column
    check of the documents-families-collections CSV, the header-name
    normaliser `DfcRow._key`, the per-type cell parser `DfcRow._parse_str`,
    `DfcRow.get_first_url` and `_sanitize`. */
module IngestUtils {
  import opened Wrappers
  import opened Strings
  import opened Table

  /** `REQUIRED_COLUMNS` of the ingest script. */
  const DfcColumns: seq<string> := [
    "ID", "Document ID", "CCLW Description", "Part of collection?", "Create new family/ies?",
    "Collection ID", "Collection name", "Collection summary", "Document title", "Family name",
    "Family summary", "Family ID", "Document role", "Applies to ID", "Geography ISO",
    "Documents", "Category", "Events", "Sectors", "Instruments",
    "Frameworks", "Responses", "Natural Hazards", "Document Type", "Year",
    "Language", "Keywords", "Geography", "Parent Legislation", "Comment",
    "CPR Document ID", "CPR Family ID", "CPR Collection ID", "CPR Family Slug", "CPR Document Slug"]

  // ---------------------------------------------------------------------
  // validate_csv_columns

  /** `VALID_COLUMN_NAMES.issubset(set(column_names))`: every required
      column is present, whatever else the header holds. */
  function ValidateCsvColumns(names: seq<string>): (b: bool)
    ensures b <==> MissingColumns(DfcColumns, names) == {}
  {
    HasColumnsIff(DfcColumns, names);
    HasColumns(DfcColumns, names)
  }

  /** Extra columns, in any position, never make a valid header invalid. */
  lemma ExtraColumnsAllowed(names: seq<string>, more: seq<string>)
    requires ValidateCsvColumns(names)
    requires forall c :: c in names ==> c in more
    ensures ValidateCsvColumns(more)
  {
    HasColumnsIff(DfcColumns, names);
    HasColumnsIff(DfcColumns, more);
  }

  /** A header lacking a required column is invalid. */
  lemma MissingColumnRejected(names: seq<string>, c: string)
    requires c in DfcColumns && c !in names
    ensures !ValidateCsvColumns(names)
  {
    assert c in MissingColumns(DfcColumns, names);
  }

  // ---------------------------------------------------------------------
  // DfcRow._key

  /** `key.lower().replace(" ", "_").replace("?", "").replace("y/", "")`:
      a column header as a `DfcRow` field name, free of spaces and
      question marks. */
  function Key(key: string): (r: string)
    ensures ' ' !in r && '?' !in r
  {
    var spaced := Spaced(Lower(key));
    var asked := Unasked(spaced);
    ReplaceAllKeepsOut(spaced, "?", "", ' ');
    ReplaceAllKeepsOut(asked, "y/", "", ' ');
    ReplaceAllKeepsOut(asked, "y/", "", '?');
    Unslashed(asked)
  }

  /** The first replacement of `_key`: spaces become underscores. */
  function Spaced(s: string): (r: string)
    ensures ' ' !in r
  {
    ReplaceAllRemoves(s, ' ', "_");
    ReplaceAll(s, " ", "_")
  }

  /** The second replacement of `_key`: question marks are dropped. */
  function Unasked(s: string): (r: string)
    ensures '?' !in r
  {
    ReplaceAllRemoves(s, '?', "");
    ReplaceAll(s, "?", "")
  }

  /** The third replacement of `_key`: every `y/` is dropped. */
  function Unslashed(s: string): string
  {
    ReplaceAll(s, "y/", "")
  }

  lemma LowerWords(a: string, b: string)
    ensures Lower(a + " " + b) == Lower(a) + " " + Lower(b)
  {
    LowerConcat(a + " ", b);
    LowerConcat(a, " ");
    assert Lower(" ") == " ";
  }

  lemma SpacedWords(x: string, y: string)
    ensures Spaced(x + " " + y) == Spaced(x) + "_" + Spaced(y)
  {
    ReplaceCharConcat(x, [' '] + y, ' ', "_");
    ReplaceCharConcat([' '], y, ' ', "_");
    assert ReplaceAll(" ", " ", "_") == "_";
    assert x + " " + y == x + ([' '] + y);
  }

  lemma UnaskedWords(x: string, y: string)
    ensures Unasked(x + "_" + y) == Unasked(x) + "_" + Unasked(y)
  {
    ReplaceAllAround(x, '_', y, "?", "");
  }

  lemma UnslashedWords(x: string, y: string)
    ensures Unslashed(x + "_" + y) == Unslashed(x) + "_" + Unslashed(y)
  {
    ReplaceAllAround(x, '_', y, "y/", "");
  }

  /** Words joined by a space become their keys joined by `_`. */
  lemma KeyWords(a: string, b: string)
    ensures Key(a + " " + b) == Key(a) + "_" + Key(b)
  {
    LowerWords(a, b);
    SpacedWords(Lower(a), Lower(b));
    UnaskedWords(Spaced(Lower(a)), Spaced(Lower(b)));
    UnslashedWords(Unasked(Spaced(Lower(a))), Unasked(Spaced(Lower(b))));
  }

  /** A header with no capital, space, question mark or `y` is its own
      key. */
  lemma KeyPlain(w: string)
    requires NoUpper(w) && ' ' !in w && '?' !in w && 'y' !in w
    ensures Key(w) == w
  {
    LowerNoUpper(w);
    ReplaceCharAbsent(w, ' ', "_");
    ReplaceCharAbsent(w, '?', "");
    KeyPlainTail(w);
  }

  /** A header without a space, question mark or `y` of either case has
      its lower-case form as key. */
  lemma KeyLowered(w: string)
    requires ' ' !in w && '?' !in w && 'y' !in w && 'Y' !in w
    ensures Key(w) == Lower(w)
  {
    var l := Lower(w);
    LowerProperties(w);
    LowerAvoids(w);
    KeyPlain(l);
    LowerNoUpper(l);
  }

  /** Lower-casing brings in no space, question mark or `y`. */
  lemma LowerAvoids(w: string)
    requires ' ' !in w && '?' !in w && 'y' !in w && 'Y' !in w
    ensures ' ' !in Lower(w) && '?' !in Lower(w) && 'y' !in Lower(w)
  {
    var l := Lower(w);
    forall i | 0 <= i < |l| ensures l[i] != 'y' && l[i] != ' ' && l[i] != '?' {
      assert l[i] == LowerChar(w[i]);
    }
  }

  /** A stem followed by `y/ies?` keys to the stem followed by `ies`: the
      header spelling of a singular-or-plural noun names the plural field. */
  lemma KeyPlural(w: string)
    requires NoUpper(w) && ' ' !in w && '?' !in w && 'y' !in w
    ensures Key(w + "y/ies?") == w + "ies"
  {
    var t, p, e, q := "y/ies?", "y/", "ies", "?";
    assert t == p + e + q;
    PluralLowerSpaced(w, t);
    assert '?' !in p + e;
    assert w + t == (w + p + e) + q;
    PluralUnasked(w + p + e, q);
    PluralUnslashed(w, p, e);
  }

  lemma PluralLowerSpaced(w: string, t: string)
    requires NoUpper(w) && ' ' !in w && t == "y/ies?"
    ensures Spaced(Lower(w + t)) == w + t
  {
    assert NoUpper(t) && ' ' !in t;
    LowerNoUpper(w + t);
    ReplaceCharAbsent(w + t, ' ', "_");
  }

  lemma PluralUnasked(u: string, q: string)
    requires '?' !in u && q == "?"
    ensures Unasked(u + q) == u
  {
    ReplaceCharConcat(u, q, '?', "");
    ReplaceCharAbsent(u, '?', "");
    assert ReplaceAll(q, "?", "") == "";
  }

  lemma PluralUnslashed(w: string, p: string, e: string)
    requires 'y' !in w && p == "y/" && e == "ies"
    ensures Unslashed(w + p + e) == w + e
  {
    forall i | 0 <= i < |w|
      ensures !StartsWith((w + (p + e))[i..], p)
    {
      assert (w + (p + e))[i..][0] == w[i];
    }
    ReplaceAllSkip(w, p + e, p, "");
    assert w + p + e == w + (p + e);
    assert ReplaceAll(p + e, p, "") == ReplaceAll(e, p, "");
    KeyPlainTail(e);
  }

  /** The last `y/` replacement on text without a `y` keeps it. */
  lemma KeyPlainTail(w: string)
    requires 'y' !in w
    ensures ReplaceAll(w, "y/", "") == w
  {
    forall i | 0 <= i < |w|
      ensures !StartsWith((w + "")[i..], "y/")
    {
      assert (w + "")[i..][0] == w[i];
    }
    ReplaceAllSkip(w, "", "y/", "");
    assert w + "" == w;
  }

  /** The header of the family-creation flag names the field
      `create_new_families`. */
  lemma KeyOfFamilyFlag(header: string)
    requires header == "Create new family/ies?"
    ensures Key(header) == "create" + "_" + ("new" + "_" + ("famil" + "ies"))
  {
    var create, second, stem := "Create", "new", "famil";
    assert header == create + " " + (second + " " + (stem + "y/ies?"));
    FlagWords(create, second, stem);
    KeyWords(create, second + " " + (stem + "y/ies?"));
    KeyWords(second, stem + "y/ies?");
    KeyLowered(create);
    KeyPlain(second);
    KeyPlural(stem);
  }

  lemma FlagWords(create: string, second: string, stem: string)
    requires create == "Create" && second == "new" && stem == "famil"
    ensures Lower(create) == "create"
    ensures ' ' !in create && '?' !in create && 'y' !in create && 'Y' !in create
    ensures NoUpper(second) && ' ' !in second && '?' !in second && 'y' !in second
    ensures NoUpper(stem) && ' ' !in stem && '?' !in stem && 'y' !in stem
  {
    var l := Lower(create);
    assert l[0] == 'c' && l[1] == 'r' && l[2] == 'e' && l[3] == 'a' && l[4] == 't' && l[5] == 'e';
  }


  /** The key of a header without `?` or `/`, character by character:
      lower case, with `_` for each space. */
  function SnakeCase(s: string): (r: string)
    ensures |r| == |s|
    ensures forall i :: 0 <= i < |s| ==> r[i] == if s[i] == ' ' then '_' else LowerChar(s[i])
  {
    seq(|s|, i requires 0 <= i < |s| => if s[i] == ' ' then '_' else LowerChar(s[i]))
  }

  /** Replacing every space by `_` works character by character. */
  lemma {:induction false} SpacedChars(s: string)
    ensures |Spaced(s)| == |s|
    ensures forall i :: 0 <= i < |s| ==> Spaced(s)[i] == if s[i] == ' ' then '_' else s[i]
    decreases |s|
  {
    if s != [] {
      SpacedChars(s[1..]);
      assert s[..1] == " " <==> s[0] == ' ' by { assert s[..1][0] == s[0]; }
      assert Spaced(s) == (if s[0] == ' ' then "_" else [s[0]]) + Spaced(s[1..]);
    }
  }

  /** Text without `/` has no `y/` to drop. */
  lemma SlashFree(w: string)
    requires '/' !in w
    ensures Unslashed(w) == w
  {
    forall i | 0 <= i < |w|
      ensures !StartsWith((w + "")[i..], "y/")
    {
      if i + 1 < |w| { assert (w + "")[i..][1] == w[i + 1]; }
    }
    ReplaceAllSkip(w, "", "y/", "");
    assert w + "" == w;
  }

  /** A header without `?` or `/` keys to its snake case: only the space
      replacement changes anything after lower-casing. */
  lemma KeySnake(c: string)
    requires '?' !in c && '/' !in c
    ensures Key(c) == SnakeCase(c)
  {
    var l := Lower(c);
    SpacedChars(l);
    var t := SnakeCase(c);
    assert Spaced(l) == t;
    assert '?' !in t && '/' !in t by {
      forall i | 0 <= i < |t| ensures t[i] != '?' && t[i] != '/' { assert c[i] != '?' && c[i] != '/'; }
    }
    ReplaceCharAbsent(t, '?', "");
    SlashFree(t);
  }

  /** A header ending in its only `?` keys to the snake case of the rest. */
  lemma KeyAsked(w: string)
    requires '?' !in w && '/' !in w
    ensures Key(w + "?") == SnakeCase(w)
  {
    var t := SnakeCase(w);
    LowerConcat(w, "?");
    assert Lower("?") == "?";
    SpacedChars(Lower(w));
    assert Spaced(Lower(w)) == t;
    ReplaceCharConcat(Lower(w), "?", ' ', "_");
    ReplaceCharAbsent("?", ' ', "_");
    assert '?' !in t && '/' !in t by {
      forall i | 0 <= i < |t| ensures t[i] != '?' && t[i] != '/' { assert w[i] != '?' && w[i] != '/'; }
    }
    PluralUnasked(t, "?");
    SlashFree(t);
  }

  /** A header with a `y` that is not followed by `/` keeps it: `Family
      name` names the field `family_name`. */
  lemma KeyOfFamilyName(header: string)
    requires header == "Family name"
    ensures Key(header) == "family_name"
  {
    KeySnake(header);
  }

  // ---------------------------------------------------------------------
  // DfcRow._parse_str

  /** The declared type of a `DfcRow` field; `OtherField` stands for any
      annotation the parser has no case for. */
  datatype FieldType = StrField | IntField | ListField | OtherField

  /** `DfcRow.field_info()`: the field names of `DfcRow` with their types. */
  const DfcFields: map<string, FieldType> := map[
    "row_number" := IntField, "id" := StrField, "document_id" := StrField,
    "cclw_description" := StrField, "part_of_collection" := StrField,
    "create_new_families" := StrField, "collection_id" := StrField,
    "collection_name" := StrField, "collection_summary" := StrField,
    "document_title" := StrField, "family_name" := StrField,
    "family_summary" := StrField, "family_id" := StrField,
    "document_role" := StrField, "applies_to_id" := StrField,
    "geography_iso" := StrField, "documents" := StrField,
    "category" := StrField, "events" := ListField, "sectors" := ListField,
    "instruments" := ListField, "frameworks" := ListField,
    "responses" := ListField, "natural_hazards" := ListField,
    "keywords" := ListField, "document_type" := StrField,
    "year" := IntField, "language" := StrField, "geography" := StrField,
    "parent_legislation" := StrField, "comment" := StrField,
    "cpr_document_id" := StrField, "cpr_family_id" := StrField,
    "cpr_collection_id" := StrField, "cpr_family_slug" := StrField,
    "cpr_document_slug" := StrField]

  /** A parsed cell: text, a whole number or a list of entries. */
  datatype Parsed = Text(text: string) | Number(number: int) | Items(items: seq<string>)

  /** Why a cell could not be parsed: `int()` rejected the text, or the
      field's type has no parsing case. */
  datatype ParseError = BadInt(value: string) | UnhandledType(key: string)

  /** Some part of `parts` strips to `e`. */
  predicate StripsTo(parts: seq<string>, e: string) {
    exists i :: 0 <= i < |parts| && Strip(parts[i]) == e
  }

  /** `[e.strip() for e in parts if e.strip()]`: the non-blank parts,
      stripped, in order. */
  function Kept(parts: seq<string>): (r: seq<string>)
    ensures |r| <= |parts|
    ensures forall i :: 0 <= i < |r| ==> r[i] != [] && Strip(r[i]) == r[i]
    ensures forall e :: e in r <==> e != [] && StripsTo(parts, e)
  {
    if parts == [] then []
    else
      var head := Strip(parts[0]);
      var rest := Kept(parts[1..]);
      StripIdempotent(parts[0]);
      StripsToCons(parts);
      if head != [] then [head] + rest else rest
  }

  /** A part strips to `e` when the first does or one of the others does. */
  lemma StripsToCons(parts: seq<string>)
    requires parts != []
    ensures forall e :: StripsTo(parts, e) <==> e == Strip(parts[0]) || StripsTo(parts[1..], e)
  {
    forall e ensures StripsTo(parts, e) ==> e == Strip(parts[0]) || StripsTo(parts[1..], e) {
      if StripsTo(parts, e) {
        var i :| 0 <= i < |parts| && Strip(parts[i]) == e;
        if i > 0 { assert parts[1..][i - 1] == parts[i]; }
      }
    }
    forall e ensures StripsTo(parts[1..], e) ==> StripsTo(parts, e) {
      if StripsTo(parts[1..], e) {
        var i :| 0 <= i < |parts[1..]| && Strip(parts[1..][i]) == e;
        assert parts[i + 1] == parts[1..][i];
      }
    }
  }

  /** A `list[str]` cell: the `;`-separated entries, stripped, blanks
      dropped. */
  function ListItems(value: string): (r: seq<string>)
    ensures forall i :: 0 <= i < |r| ==> r[i] != [] && Strip(r[i]) == r[i]
    ensures forall e :: e in r <==> e != [] && StripsTo(Split(value, ';'), e)
  {
    Kept(Split(value, ';'))
  }

  /** An entry the list parser reproduces unchanged. */
  predicate CleanItem(e: string) {
    e != [] && Strip(e) == e && ';' !in e
  }

  /** Parts that are already clean are all kept, as they are. */
  lemma {:induction false} KeptClean(items: seq<string>)
    requires forall i :: 0 <= i < |items| ==> CleanItem(items[i])
    ensures Kept(items) == items
  {
    if items != [] {
      KeptClean(items[1..]);
      assert items == [items[0]] + items[1..];
    }
  }

  /** Joining clean entries with `;` and parsing the result gives the
      entries back. */
  lemma ListItemsJoin(items: seq<string>)
    requires |items| >= 1
    requires forall i :: 0 <= i < |items| ==> CleanItem(items[i])
    ensures ListItems(Join(items, ';')) == items
  {
    SplitJoin(items, ';');
    KeptClean(items);
  }

  /** `DfcRow._parse_str(key, value, field_info)`. */
  function ParseStr(key: string, value: string, info: map<string, FieldType>): (r: Result<Parsed, ParseError>)
    ensures key !in info ==> r == Success(Text(value))
    ensures r.Failure? <==> key in info && (info[key] == OtherField || (info[key] == IntField && value != [] && ParseInt(value).None?))
    ensures r.Success? && key in info && info[key] == ListField ==> r.value.Items?
    ensures r.Success? && key in info && info[key] == IntField ==> r.value.Number?
    ensures r.Success? && key in info && info[key] == StrField ==> r.value.Text?
  {
    if key !in info then Success(Text(value))
    else match info[key]
      case ListField => Success(Items(ListItems(value)))
      case IntField =>
        if value == [] then Success(Number(0))
        else (match ParseInt(value)
          case Some(n) => Success(Number(n))
          case None => Failure(BadInt(value)))
      case StrField =>
        var na := Lower(value);
        Success(Text(if na == "n/a" then na else value))
      case OtherField => Failure(UnhandledType(key))
  }

  /** A `str` cell spelling `n/a` in any case parses to `n/a`; any other
      text is kept as written. */
  lemma ParseStrText(key: string, value: string, info: map<string, FieldType>)
    requires key in info && info[key] == StrField
    ensures Lower(value) == "n/a" ==> ParseStr(key, value, info) == Success(Text("n/a"))
    ensures Lower(value) != "n/a" ==> ParseStr(key, value, info) == Success(Text(value))
  {
  }

  /** Parsing a parsed `str` cell again changes nothing. */
  lemma ParseStrTextIdempotent(key: string, value: string, info: map<string, FieldType>)
    requires key in info && info[key] == StrField
    ensures ParseStr(key, ParseStr(key, value, info).value.text, info) == ParseStr(key, value, info)
  {
    var na := Lower(value);
    if na == "n/a" {
      LowerProperties(value);
    }
  }

  /** An `int` cell holding the decimal text of `n` parses to `n`; an
      empty one parses to 0. */
  lemma ParseStrNumber(key: string, n: int, info: map<string, FieldType>)
    requires key in info && info[key] == IntField
    ensures ParseStr(key, IntToString(n), info) == Success(Number(n))
    ensures ParseStr(key, "", info) == Success(Number(0))
  {
    IntToStringRoundTrip(n);
  }

  /** A `list[str]` cell holding clean entries joined by `;` parses to
      those entries. */
  lemma ParseStrItems(key: string, items: seq<string>, info: map<string, FieldType>)
    requires key in info && info[key] == ListField
    requires |items| >= 1
    requires forall i :: 0 <= i < |items| ==> CleanItem(items[i])
    ensures ParseStr(key, Join(items, ';'), info) == Success(Items(items))
  {
    ListItemsJoin(items);
  }


  // ---------------------------------------------------------------------
  // DfcRow.get_first_url

  /** `get_first_url` refuses a `documents` cell that splits on `;` into
      more than one part. */
  datatype UrlError = NotOneDocument(documents: string)

  /** `DfcRow.get_first_url`: the text of the only document up to its
      first `|`. */
  function GetFirstUrl(documents: string): (r: Result<string, UrlError>)
    ensures r.Failure? <==> ';' in documents
    ensures r.Success? ==> '|' !in r.value
    ensures r.Success? ==> |r.value| <= |documents| && documents[..|r.value|] == r.value
    ensures r.Success? && |r.value| < |documents| ==> documents[|r.value|] == '|'
  {
    var parts := Split(documents, ';');
    if |parts| != 1 then Failure(NotOneDocument(documents))
    else
      SplitNoSep(documents, ';');
      SplitFirst(documents, '|');
      Success(Split(parts[0], '|')[0])
  }

  /** A URL followed by `|` and further fields gives back the URL. */
  lemma GetFirstUrlOf(url: string, rest: string)
    requires '|' !in url && ';' !in url && ';' !in rest
    ensures GetFirstUrl(url + "|" + rest) == Success(url)
  {
    var s := url + "|" + rest;
    assert s[|url|] == '|';
    assert s[..|url|] == url;
    var r := GetFirstUrl(s).value;
    assert ';' !in s by {
      forall i | 0 <= i < |s| ensures s[i] != ';' {
        if i > |url| { assert s[i] == rest[i - |url| - 1]; }
      }
    }
    // The result is a `|`-free prefix ending at a `|` or at the end, and
    // the first `|` of `s` is the one after `url`.
    assert forall i :: 0 <= i < |url| ==> s[i] == url[i] != '|';
  }

  /** A cell with no `|` is its own first URL. */
  lemma GetFirstUrlPlain(documents: string)
    requires '|' !in documents && ';' !in documents
    ensures GetFirstUrl(documents) == Success(documents)
  {
    assert documents[..|documents|] == documents;
  }

  // ---------------------------------------------------------------------
  // _sanitize

  /** Python's `s[8:-2]`: empty when the string has fewer than ten
      characters. */
  function ClassSlice(s: string): (r: string)
    ensures |s| >= 10 ==> |r| == |s| - 10 && forall i :: 0 <= i < |r| ==> r[i] == s[i + 8]
    ensures |s| < 10 ==> r == []
  {
    if |s| >= 10 then s[8..|s| - 2] else []
  }

  /** `_sanitize(value)`: the class name out of a `<class '...'>` text,
      otherwise the text cut to 80 characters plus `...`. */
  function Sanitize(s: string): (r: string)
    ensures StartsWith(s, "<class") ==> '.' !in r
    ensures !StartsWith(s, "<class") && |s| <= 80 ==> r == s
    ensures !StartsWith(s, "<class") && |s| > 80 ==> |r| == 83 && r[..80] == s[..80] && r[80..] == "..."
  {
    if StartsWith(s, "<class") then LastPart(ClassSlice(s), '.')
    else if |s| > 80 then s[..80] + "..."
    else s
  }

  /** The text of a class, `<class 'package.module.Name'>`, sanitises to
      the bare class name. */
  lemma SanitizeClass(open: string, path: string, name: string, close: string)
    requires open == "<class '" && close == "'>"
    requires '.' !in name
    ensures Sanitize(open + path + "." + name + close) == name
  {
    var s := open + path + "." + name + close;
    assert s[..6] == open[..6];
    assert StartsWith(s, "<class");
    var inner := path + "." + name;
    assert ClassSlice(s) == inner;
    LastPartAfter(path, name, '.');
  }
}
