// What the canonical form of a schema shows, and in which order it lists it.

module SchemaTheorems {
  import opened SchemaSnapshot
  import opened StableSort

  // ---- Which changes are visible ----

  /** Whatever the locale and the types in the columns, snapshots with equal canonical forms have the
      same picked rows in every section, with their multiplicity. */
  lemma EqualFormsSameRows(collate: Collation, a: Snapshot, b: Snapshot, section: Section)
    requires CanonicalizeSchemaSnapshot(collate, a) == CanonicalizeSchemaSnapshot(collate, b)
    requires section in a.sections
    ensures a.schema == b.schema && section in b.sections
    ensures multiset(Picked(a, section)) == multiset(Picked(b, section))
  {
    var ca, cb := CanonicalizeSchemaSnapshot(collate, a), CanonicalizeSchemaSnapshot(collate, b);
    assert section in ca.sections && ca.sections == cb.sections;
    assert CanonicalRows(collate, section, a.sections[section]) == CanonicalRows(collate, section, b.sections[section]);
    SortPermutes(RowOrder(collate, SortColumns(section)), Picked(a, section));
    SortPermutes(RowOrder(collate, SortColumns(section)), Picked(b, section));
  }

  /** The snapshot with one row of one section replaced. */
  function WithRow(s: Snapshot, section: Section, i: nat, row: Row): Snapshot
    requires section in s.sections && i < |s.sections[section]|
  {
    s.(sections := s.sections[section := s.sections[section][i := row]])
  }

  lemma ReplacedElement<T>(s: seq<T>, i: nat, x: T)
    requires i < |s|
    ensures multiset(s[i := x]) == multiset(s) <==> x == s[i]
  {
    assert multiset(s[i := x]) == multiset(s) - multiset{s[i]} + multiset{x};
    if x == s[i] {
      assert s[i := x] == s;
    } else {
      assert multiset(s[i := x])[x] == multiset(s)[x] + 1;
    }
  }

  lemma PickedReplaced(rows: seq<Row>, keys: seq<string>, i: nat, row: Row)
    requires i < |rows|
    ensures multiset(PickRows(rows[i := row], keys)) == multiset(PickRows(rows, keys)) <==>
            Pick(row, keys) == Pick(rows[i], keys)
    ensures Pick(row, keys) == Pick(rows[i], keys) ==> PickRows(rows[i := row], keys) == PickRows(rows, keys)
  {
    assert PickRows(rows[i := row], keys) == PickRows(rows, keys)[i := Pick(row, keys)];
    ReplacedElement(PickRows(rows, keys), i, Pick(row, keys));
  }

  lemma SamePicksSameForm(collate: Collation, a: Snapshot, b: Snapshot)
    requires a.schema == b.schema && a.sections.Keys == b.sections.Keys
    requires forall section :: section in a.sections ==> Picked(a, section) == Picked(b, section)
    ensures CanonicalizeSchemaSnapshot(collate, a) == CanonicalizeSchemaSnapshot(collate, b)
  {
    var ca, cb := CanonicalizeSchemaSnapshot(collate, a), CanonicalizeSchemaSnapshot(collate, b);
    forall section | section in ca.sections
      ensures section in cb.sections && ca.sections[section] == cb.sections[section]
    {
      assert section in a.sections && Picked(a, section) == Picked(b, section);
    }
    assert ca.sections == cb.sections;
  }

  /** Replacing a row changes the canonical form exactly when it changes what is picked of the row. */
  lemma ReplacedRowVisibleExactly(collate: Collation, s: Snapshot, section: Section, i: nat, row: Row)
    requires section in s.sections && i < |s.sections[section]|
    ensures CanonicalizeSchemaSnapshot(collate, WithRow(s, section, i, row)) != CanonicalizeSchemaSnapshot(collate, s)
      <==> Pick(row, PickedColumns(section)) != Pick(s.sections[section][i], PickedColumns(section))
  {
    var s', keys := WithRow(s, section, i, row), PickedColumns(section);
    PickedReplaced(s.sections[section], keys, i, row);
    if Pick(row, keys) == Pick(s.sections[section][i], keys) {
      SamePicksSameForm(collate, s', s);
    } else if CanonicalizeSchemaSnapshot(collate, s') == CanonicalizeSchemaSnapshot(collate, s) {
      EqualFormsSameRows(collate, s', s, section);
    }
  }

  predicate Plain(v: Scalar) { v.SNull? || v.SNum? || v.SBool? || v.SStr? }

  /** A picked column that goes from one plain value to another, in one row, changes the form. */
  lemma ChangedValueIsVisible(collate: Collation, s: Snapshot, section: Section, i: nat, row: Row, key: string)
    requires section in s.sections && i < |s.sections[section]| && key in PickedColumns(section)
    requires key in row && key in s.sections[section][i] && Plain(row[key]) && Plain(s.sections[section][i][key])
    requires row[key] != s.sections[section][i][key]
    ensures CanonicalizeSchemaSnapshot(collate, WithRow(s, section, i, row)) != CanonicalizeSchemaSnapshot(collate, s)
  {
    ReplacedRowVisibleExactly(collate, s, section, i, row);
    var keys := PickedColumns(section);
    assert key in Pick(row, keys) && key in Pick(s.sections[section][i], keys);
    NormalRenders(row[key]);
    NormalRenders(s.sections[section][i][key]);
  }

  /** A row added or lost changes the form. */
  lemma RowCountIsVisible(collate: Collation, a: Snapshot, b: Snapshot, section: Section)
    requires section in a.sections && section in b.sections && |a.sections[section]| != |b.sections[section]|
    ensures CanonicalizeSchemaSnapshot(collate, a) != CanonicalizeSchemaSnapshot(collate, b)
  {
    assert |multiset(Picked(a, section))| == |a.sections[section]|;
    assert |multiset(Picked(b, section))| == |b.sections[section]|;
    if CanonicalizeSchemaSnapshot(collate, a) == CanonicalizeSchemaSnapshot(collate, b) {
      EqualFormsSameRows(collate, a, b, section);
    }
  }

  // ---- Nothing gathered is dropped ----

  /** The columns of each catalog query, in the order it selects them. */
  function GatheredColumns(s: Section): seq<string> {
    match s
    case Tables => ["table_name"]
    case Columns => ["table_name", "column_name", "ordinal_position", "data_type", "udt_name", "is_nullable",
                     "column_default", "is_identity", "identity_generation", "is_generated", "generation_expression"]
    case PrimaryKeys => ["table_name", "constraint_name", "column_name", "ordinal_position"]
    case UniqueConstraints => ["table_name", "constraint_name", "column_name", "ordinal_position"]
    case ForeignKeys => ["table_name", "constraint_name", "column_name", "ordinal_position", "foreign_table_name",
                         "foreign_column_name", "update_rule", "delete_rule", "is_deferrable", "initially_deferred"]
    case CheckConstraints => ["table_name", "constraint_name", "check_clause"]
    case Indexes => ["table_name", "index_name", "indexdef"]
    case Enums => ["enum_name", "enum_sort_order", "enum_value"]
    case Sequences => ["sequence_name", "data_type", "start_value", "minimum_value", "maximum_value", "increment",
                       "cycle_option", "owned_by_table", "owned_by_column"]
    case RowLevelSecurity => ["table_name", "relrowsecurity", "relforcerowsecurity"]
    case Policies => ["table_name", "policy_name", "permissive", "roles", "command", "qual", "with_check"]
    case Triggers => ["table_name", "trigger_name", "action_timing", "event_manipulation", "action_statement"]
  }

  /** Every value a catalog query returns reaches the canonical form. */
  lemma NothingGatheredIsDropped(section: Section, key: string)
    requires key in GatheredColumns(section)
    ensures key in PickedColumns(section)
  {
  }

  // ---- The catalog's own keys ----

  /** What identifies a row of each section in the database. */
  function CatalogKey(s: Section): seq<string> {
    match s
    case Tables => ["table_name"]
    case Columns => ["table_name", "column_name"]
    case PrimaryKeys => ["table_name", "constraint_name", "column_name"]
    case UniqueConstraints => ["table_name", "constraint_name", "column_name"]
    case ForeignKeys => ["table_name", "constraint_name", "ordinal_position"]
    case CheckConstraints => ["table_name", "constraint_name", "check_clause"]
    case Indexes => ["table_name", "index_name"]
    case Enums => ["enum_name", "enum_value"]
    case Sequences => ["sequence_name", "owned_by_table", "owned_by_column"]
    case RowLevelSecurity => ["table_name"]
    case Policies => ["table_name", "policy_name"]
    case Triggers => ["table_name", "trigger_name", "event_manipulation"]
  }

  lemma CatalogKeyIsSorted(section: Section, key: string)
    requires key in CatalogKey(section)
    ensures key in SortColumns(section)
  {
  }

  /** Rows of one table, constraint or policy are told apart by their key columns. */
  ghost predicate KeyedByCatalog(s: Snapshot, section: Section)
    requires section in s.sections
  {
    forall x, y :: x in Picked(s, section) && y in Picked(s, section) && SameKey(CatalogKey(section), x, y) ==> x == y
  }
  predicate SameKey(keys: seq<string>, x: Row, y: Row) { forall k :: k in keys ==> Value(x, k) == Value(y, k) }

  /** The locale tells different texts apart. */
  ghost predicate Separates(collate: Collation) { forall x, y :: collate(x, y) == 0 ==> x == y }

  lemma {:induction false} TiesAgree(collate: Collation, keys: seq<string>, kinds: Kinds, x: Row, y: Row, k: string)
    requires Separates(collate) && Conforms(x, keys, kinds) && Conforms(y, keys, kinds) && k in keys
    requires CompareRows(collate, keys, x, y) == 0
    ensures Value(x, k) == Value(y, k)
  {
    assert OfKind(Value(x, keys[0]), kinds[keys[0]]) && OfKind(Value(y, keys[0]), kinds[keys[0]]);
    if k != keys[0] {
      TiesAgree(collate, keys[1..], kinds, x, y, k);
    }
  }

  lemma SortedKeyDetermines(collate: Collation, keys: seq<string>, kinds: Kinds, key: seq<string>, rows: seq<Row>)
    requires Separates(collate) && Within(Conforming(keys, kinds), rows) && forall k :: k in key ==> k in keys
    requires forall x, y :: x in rows && y in rows && SameKey(key, x, y) ==> x == y
    ensures KeysDetermine(RowOrder(collate, keys), rows)
  {
    forall x, y | x in rows && y in rows && RowOrder(collate, keys)(x, y) == 0 ensures x == y {
      assert Conforming(keys, kinds)(x) && Conforming(keys, kinds)(y);
      forall k | k in key ensures Value(x, k) == Value(y, k) {
        TiesAgree(collate, keys, kinds, x, y, k);
      }
    }
  }

  lemma CatalogKeysDetermine(collate: Collation, s: Snapshot, kinds: map<Section, Kinds>, section: Section)
    requires Separates(collate) && Homogeneous(s, kinds) && KeyedByCatalog(s, section)
    ensures KeysDetermine(RowOrder(collate, SortColumns(section)), Picked(s, section))
  {
    forall k | k in CatalogKey(section) ensures k in SortColumns(section) {
      CatalogKeyIsSorted(section, k);
    }
    var rows := Picked(s, section);
    SortedKeyDetermines(collate, SortColumns(section), kinds[section], CatalogKey(section), rows);
  }

  /** So, in a locale that tells different texts apart, two schemas have the same canonical form
      exactly when they have the same name and the same rows, in whatever order they were read. */
  lemma CatalogNormalForm(collate: Collation, a: Snapshot, b: Snapshot, kinds: map<Section, Kinds>)
    requires IsCollation(collate) && Separates(collate) && Homogeneous(a, kinds) && Homogeneous(b, kinds)
    requires forall section: Section :: KeyedByCatalog(a, section) && KeyedByCatalog(b, section)
    ensures CanonicalizeSchemaSnapshot(collate, a) == CanonicalizeSchemaSnapshot(collate, b) <==>
            a.schema == b.schema && forall section: Section ::
              multiset(Picked(a, section)) == multiset(Picked(b, section))
  {
    forall section: Section
      ensures KeysDetermine(RowOrder(collate, SortColumns(section)), Picked(a, section)) &&
        KeysDetermine(RowOrder(collate, SortColumns(section)), Picked(b, section))
    {
      CatalogKeysDetermine(collate, a, kinds, section);
      CatalogKeysDetermine(collate, b, kinds, section);
    }
    CanonicalIsNormalForm(collate, a, b, kinds);
  }

  // ---- Texts of numbers ----

  function ReadDigits(s: string): int {
    if s == "" then 0 else 10 * ReadDigits(s[..|s| - 1]) + (s[|s| - 1] as int - '0' as int)
  }

  lemma DigitReads(d: nat)
    requires d < 10
    ensures DIGITS[d] as int - '0' as int == d && DIGITS[d] != '-'
  {
  }

  lemma {:induction false} DigitsReadBack(n: nat)
    ensures Digits(n) != "" && Digits(n)[0] != '-' && ReadDigits(Digits(n)) == n
  {
    DigitReads(n % 10);
    if n < 10 {
      assert Digits(n)[..0] == "";
    } else {
      DigitsReadBack(n / 10);
      assert Digits(n)[..|Digits(n)| - 1] == Digits(n / 10);
    }
  }

  lemma NumberTextReads(n: int)
    ensures var t := Text(SNum(n));
            t != "" && if n < 0 then t[0] == '-' && ReadDigits(t[1..]) == -n else t[0] != '-' && ReadDigits(t) == n
  {
    DigitsReadBack(if n < 0 then -n else n);
    if n < 0 { assert Text(SNum(n))[1..] == Digits(-n); }
  }

  /** Different numbers have different texts, so the text comparison never ties two of them. */
  lemma NumberTextsDiffer(n: int, m: int)
    requires Text(SNum(n)) == Text(SNum(m))
    ensures n == m
  {
    NumberTextReads(n);
    NumberTextReads(m);
  }

  // ---- The order of the canonical rows ----

  /** `v` may stand before `w`: nulls first, numbers ascending, false before true, texts as the
      locale orders them. */
  ghost predicate MayPrecede(collate: Collation, v: Scalar, w: Scalar) {
    && (w.SNull? ==> v.SNull?)
    && (v.SNum? && w.SNum? ==> v.n <= w.n)
    && (v.SBool? && w.SBool? && v.b ==> w.b)
    && (v.SStr? && w.SStr? && v != w ==> collate(v.s, w.s) <= 0)
  }

  /** The first column in which two rows differ decides which comes first. */
  ghost predicate Precedes(collate: Collation, keys: seq<string>, x: Row, y: Row) {
    forall i :: 0 <= i < |keys| && (forall j :: 0 <= j < i ==> Value(x, keys[j]) == Value(y, keys[j])) ==>
      MayPrecede(collate, Value(x, keys[i]), Value(y, keys[i]))
  }

  lemma {:induction false} ComparedPrecedes(collate: Collation, keys: seq<string>, x: Row, y: Row, i: nat)
    requires CompareRows(collate, keys, x, y) <= 0 && i < |keys|
    requires forall j :: 0 <= j < i ==> Value(x, keys[j]) == Value(y, keys[j])
    ensures MayPrecede(collate, Value(x, keys[i]), Value(y, keys[i]))
  {
    if i > 0 {
      assert Value(x, keys[0]) == Value(y, keys[0]);
      forall j | 0 <= j < i - 1 ensures Value(x, keys[1..][j]) == Value(y, keys[1..][j]) {
        assert keys[1..][j] == keys[j + 1];
      }
      ComparedPrecedes(collate, keys[1..], x, y, i - 1);
    }
  }

  lemma SortedRowsInOrder(collate: Collation, keys: seq<string>, kinds: Kinds, rows: seq<Row>)
    requires IsCollation(collate) && Within(Conforming(keys, kinds), rows)
    ensures var sorted := SortRowsByKeys(collate, rows, keys);
            && |sorted| == |rows|
            && forall i, j :: 0 <= i < j < |rows| ==> CompareRows(collate, keys, sorted[i], sorted[j]) <= 0
  {
    RowsConsistent(collate, keys, kinds);
    SortIsStableSort(RowOrder(collate, keys), Conforming(keys, kinds), rows);
    assert |multiset(Sort(RowOrder(collate, keys), rows))| == |multiset(rows)| == |rows|;
    var sorted := SortRowsByKeys(collate, rows, keys);
    forall i, j | 0 <= i < j < |rows| ensures CompareRows(collate, keys, sorted[i], sorted[j]) <= 0 {
      assert RowOrder(collate, keys)(sorted[i], sorted[j]) <= 0;
    }
  }

  lemma ComparedRowsPrecede(collate: Collation, keys: seq<string>, x: Row, y: Row)
    requires CompareRows(collate, keys, x, y) <= 0
    ensures Precedes(collate, keys, x, y)
  {
    forall i | 0 <= i < |keys| && forall j :: 0 <= j < i ==> Value(x, keys[j]) == Value(y, keys[j])
      ensures MayPrecede(collate, Value(x, keys[i]), Value(y, keys[i]))
    {
      ComparedPrecedes(collate, keys, x, y, i);
    }
  }

  /** Every section of the canonical form is in that order. */
  lemma CanonicalRowsInOrder(collate: Collation, s: Snapshot, kinds: map<Section, Kinds>, section: Section,
    i: nat, j: nat)
    requires IsCollation(collate) && Homogeneous(s, kinds) && i < j < |s.sections[section]|
    ensures var rows := CanonicalRows(collate, section, s.sections[section]);
            |rows| == |s.sections[section]| && Precedes(collate, SortColumns(section), rows[i], rows[j])
  {
    SortedRowsInOrder(collate, SortColumns(section), kinds[section], Picked(s, section));
    var rows := CanonicalRows(collate, section, s.sections[section]);
    ComparedRowsPrecede(collate, SortColumns(section), rows[i], rows[j]);
  }
}
