// The canonical form of a schema snapshot, and the migration ledger comparison built the same way.

module SchemaSnapshot {
  import opened Doubles
  import opened StableSort
  import opened Options

  /** A value as the driver delivers it. `SBig` is a bigint and `SOther` any object, by its text; picking
      turns both into plain scalars. */
  datatype Scalar = SNull | SNum(n: int) | SBool(b: bool) | SStr(s: string) | SBig(big: int) | SOther(text: string)
  type Row = map<string, Scalar>

  function Digits(n: nat): string { if n < 10 then [DIGITS[n]] else Digits(n / 10) + [DIGITS[n % 10]] }
  const DIGITS := "0123456789"

  /** `String(value)`. */
  function Text(v: Scalar): string {
    match v
    case SNull => "null"
    case SNum(n) => if n < 0 then "-" + Digits(-n) else Digits(n)
    case SBool(b) => if b then "true" else "false"
    case SStr(s) => s
    case SBig(n) => if n < 0 then "-" + Digits(-n) else Digits(n)
    case SOther(t) => t
  }

  /** `scalar`: what picking makes of a value. */
  function Normal(v: Scalar): Scalar {
    match v
    case SBig(n) => SNum(ToDouble(n))
    case SOther(t) => SStr(t)
    case _ => v
  }

  /** Two bigints that share a nearest double become the same number. */
  lemma BigintsCollapse()
    ensures Normal(SBig(MAX_EXACT)) == Normal(SBig(MAX_EXACT + 1)) == SNum(MAX_EXACT)
  {
    assert Spacing((MAX_EXACT + 1) / 2) == 1;
    assert Spacing(MAX_EXACT + 1) == 2;
  }

  /** `localeCompare` of some locale. Distinct strings may compare equal. */
  type Collation = (string, string) -> int
  ghost predicate IsCollation(collate: Collation) { Consistent(collate, (x: string) => true) }

  function Bit(b: bool): int { if b then 1 else 0 }

  function CompareScalars(collate: Collation, a: Scalar, b: Scalar): int {
    if a == b then 0
    else if a == SNull then -1
    else if b == SNull then 1
    else if a.SNum? && b.SNum? then a.n - b.n
    else if a.SBool? && b.SBool? then Bit(a.b) - Bit(b.b)
    else collate(Text(a), Text(b))
  }

  function Value(row: Row, key: string): Scalar { if key in row then row[key] else SNull }

  function CompareRows(collate: Collation, keys: seq<string>, left: Row, right: Row): int {
    if keys == [] then 0
    else
      var c := CompareScalars(collate, Value(left, keys[0]), Value(right, keys[0]));
      if c != 0 then c else CompareRows(collate, keys[1..], left, right)
  }

  /** The comparator as the loop it is. */
  method CompareByKeys(collate: Collation, keys: seq<string>, left: Row, right: Row) returns (c: int)
    ensures c == CompareRows(collate, keys, left, right)
  {
    for i := 0 to |keys|
      invariant CompareRows(collate, keys[i..], left, right) == CompareRows(collate, keys, left, right)
    {
      c := CompareScalars(collate, Value(left, keys[i]), Value(right, keys[i]));
      if c != 0 { return; }
      assert keys[i..][1..] == keys[i + 1..];
    }
    c := 0;
  }

  function Pick(row: Row, keys: seq<string>): Row { map k | k in keys :: Normal(Value(row, k)) }

  /** What picking promises of one value: plain scalars are kept, a bigint becomes a number that no
      integer a double can hold is nearer to, and any other object its text. */
  ghost predicate Rendered(v: Scalar, w: Scalar) {
    match v
    case SBig(n) => w.SNum? && Nearest(w.n, n)
    case SOther(t) => w == SStr(t)
    case _ => w == v
  }

  lemma NormalRenders(v: Scalar)
    ensures Rendered(v, Normal(v))
  {
    if v.SBig? { ToDoubleIsNearest(v.big); }
  }

  method PickByKeys(row: Row, keys: seq<string>) returns (out: Row)
    ensures out == Pick(row, keys)
    ensures forall k :: k in out <==> k in keys
    ensures forall k :: k in keys && k !in row ==> out[k] == SNull
    ensures forall k :: k in keys && k in row ==> Rendered(row[k], out[k])
  {
    out := map[];
    for i := 0 to |keys|
      invariant out == Pick(row, keys[..i])
    {
      out := out[keys[i] := Normal(Value(row, keys[i]))];
      assert keys[..i + 1] == keys[..i] + [keys[i]];
    }
    assert keys[..|keys|] == keys;
    forall k | k in keys && k in row ensures Rendered(row[k], out[k]) {
      NormalRenders(row[k]);
    }
  }

  function RowOrder(collate: Collation, keys: seq<string>): (Row, Row) -> int {
    (left: Row, right: Row) => CompareRows(collate, keys, left, right)
  }

  function SortRowsByKeys(collate: Collation, rows: seq<Row>, keys: seq<string>): seq<Row> {
    Sort(RowOrder(collate, keys), rows)
  }

  // ---- When sorting rows forgets their order ----

  lemma ScalarsSymmetric(collate: Collation, a: Scalar, b: Scalar)
    requires IsCollation(collate)
    ensures CompareScalars(collate, a, b) <= 0 <==> CompareScalars(collate, b, a) >= 0
  {
  }

  /** Whatever the types in the columns, comparing the other way round answers consistently. */
  lemma {:induction false} RowsSymmetric(collate: Collation, keys: seq<string>, x: Row, y: Row)
    requires IsCollation(collate)
    ensures CompareRows(collate, keys, x, y) <= 0 <==> CompareRows(collate, keys, y, x) >= 0
  {
    if keys != [] {
      ScalarsSymmetric(collate, Value(x, keys[0]), Value(y, keys[0]));
      ScalarsSymmetric(collate, Value(y, keys[0]), Value(x, keys[0]));
      RowsSymmetric(collate, keys[1..], x, y);
    }
  }

  /** Sorting rows from a given set forgets the order they were read in exactly when their comparison
      is transitive and only equal rows compare equal. */
  lemma RowSortForgetsOrderExactly(collate: Collation, keys: seq<string>, dom: Row -> bool)
    requires IsCollation(collate)
    ensures ForgetsOrder(RowOrder(collate, keys), dom) <==>
            Transitive(RowOrder(collate, keys), dom) && ZeroMeansEqual(RowOrder(collate, keys), dom)
  {
    forall x, y ensures RowOrder(collate, keys)(x, y) <= 0 <==> RowOrder(collate, keys)(y, x) >= 0 {
      RowsSymmetric(collate, keys, x, y);
    }
    ForgetsOrderExactly(RowOrder(collate, keys), dom);
  }

  // ---- Columns of one type order consistently ----

  datatype Kind = KNum | KBool | KStr

  predicate OfKind(v: Scalar, kind: Kind) {
    v == SNull || (match kind case KNum => v.SNum? case KBool => v.SBool? case KStr => v.SStr?)
  }

  /** Mixing numbers with text breaks transitivity: 9 < 10, 10 < "5" and "5" < 9 in any locale that
      orders digits. */
  lemma MixedColumnNotTransitive(collate: Collation)
    requires collate("10", "5") < 0 && collate("5", "9") < 0
    ensures CompareScalars(collate, SNum(9), SNum(10)) < 0
    ensures CompareScalars(collate, SNum(10), SStr("5")) < 0
    ensures CompareScalars(collate, SStr("5"), SNum(9)) < 0
  {
    assert Digits(10) == Digits(1) + Digits(0) == "10" && Digits(9) == "9";
  }

  /** So such a column makes the canonical form depend on the order the rows were read in. */
  lemma MixedColumnRemembersOrder(collate: Collation, key: string)
    requires collate("10", "5") < 0 && collate("5", "9") < 0
    ensures var nine, ten, five := map[key := SNum(9)], map[key := SNum(10)], map[key := SStr("5")];
            multiset([nine, ten, five]) == multiset([five, nine, ten]) &&
            SortRowsByKeys(collate, [nine, ten, five], [key]) != SortRowsByKeys(collate, [five, nine, ten], [key])
  {
    MixedColumnNotTransitive(collate);
    var order := RowOrder(collate, [key]);
    var nine, ten, five := map[key := SNum(9)], map[key := SNum(10)], map[key := SStr("5")];
    assert Value(nine, key) == SNum(9) && Value(ten, key) == SNum(10) && Value(five, key) == SStr("5");
    assert order(nine, ten) < 0 && order(ten, five) < 0 && order(five, nine) < 0;
    CycleRemembersOrder(order, nine, ten, five);
  }

  type Kinds = map<string, Kind>

  /** The sort columns of the row hold null or their column's type. */
  predicate Conforms(row: Row, keys: seq<string>, kinds: Kinds) {
    forall k :: k in keys ==> k in kinds && OfKind(Value(row, k), kinds[k])
  }
  function Conforming(keys: seq<string>, kinds: Kinds): Row -> bool { (row: Row) => Conforms(row, keys, kinds) }

  lemma {:induction false} RowsOrdered(collate: Collation, keys: seq<string>, kinds: Kinds, x: Row, y: Row, z: Row)
    requires IsCollation(collate) && Conforms(x, keys, kinds) && Conforms(y, keys, kinds) && Conforms(z, keys, kinds)
    ensures CompareRows(collate, keys, x, x) == 0
    ensures CompareRows(collate, keys, x, y) <= 0 <==> CompareRows(collate, keys, y, x) >= 0
    ensures CompareRows(collate, keys, x, y) <= 0 && CompareRows(collate, keys, y, z) <= 0 ==>
      CompareRows(collate, keys, x, z) <= 0
    ensures CompareRows(collate, keys, x, y) == 0 && CompareRows(collate, keys, y, z) == 0 ==>
      CompareRows(collate, keys, x, z) == 0
    decreases |keys|
  {
    if keys != [] {
      ScalarsOrdered(collate, kinds[keys[0]], Value(x, keys[0]), Value(y, keys[0]), Value(z, keys[0]));
      ScalarsOrdered(collate, kinds[keys[0]], Value(y, keys[0]), Value(x, keys[0]), Value(z, keys[0]));
      ScalarsOrdered(collate, kinds[keys[0]], Value(z, keys[0]), Value(y, keys[0]), Value(x, keys[0]));
      RowsOrdered(collate, keys[1..], kinds, x, y, z);
    }
  }

  lemma ScalarsOrdered(collate: Collation, kind: Kind, a: Scalar, b: Scalar, c: Scalar)
    requires IsCollation(collate) && OfKind(a, kind) && OfKind(b, kind) && OfKind(c, kind)
    ensures CompareScalars(collate, a, b) <= 0 <==> CompareScalars(collate, b, a) >= 0
    ensures CompareScalars(collate, a, b) <= 0 && CompareScalars(collate, b, c) <= 0 ==>
      CompareScalars(collate, a, c) <= 0
    ensures CompareScalars(collate, a, c) == 0 ==>
              CompareScalars(collate, a, b) <= 0 && CompareScalars(collate, b, c) <= 0 ==>
                CompareScalars(collate, a, b) == 0 && CompareScalars(collate, b, c) == 0
  {
  }

  lemma RowsConsistent(collate: Collation, keys: seq<string>, kinds: Kinds)
    requires IsCollation(collate)
    ensures Consistent(RowOrder(collate, keys), Conforming(keys, kinds))
  {
    forall x: Row, y: Row, z: Row | Conforms(x, keys, kinds) && Conforms(y, keys, kinds) && Conforms(z, keys, kinds)
      ensures CompareRows(collate, keys, x, x) == 0
      ensures CompareRows(collate, keys, x, y) <= 0 <==> CompareRows(collate, keys, y, x) >= 0
      ensures CompareRows(collate, keys, x, y) <= 0 && CompareRows(collate, keys, y, z) <= 0 ==>
        CompareRows(collate, keys, x, z) <= 0
    {
      RowsOrdered(collate, keys, kinds, x, y, z);
    }
  }

  // ---- Snapshots ----

  datatype Section =
    | Tables | Columns | PrimaryKeys | UniqueConstraints | ForeignKeys | CheckConstraints
    | Indexes | Enums | Sequences | RowLevelSecurity | Policies | Triggers

  function PickedColumns(s: Section): seq<string> {
    match s
    case Tables => ["table_name"]
    case Columns => ["table_name", "column_name", "ordinal_position", "data_type", "udt_name", "is_nullable",
      "column_default",
                     "is_identity", "identity_generation", "is_generated", "generation_expression"]
    case PrimaryKeys => ["table_name", "constraint_name", "column_name", "ordinal_position"]
    case UniqueConstraints => ["table_name", "constraint_name", "column_name", "ordinal_position"]
    case ForeignKeys => ["table_name", "constraint_name", "column_name", "ordinal_position", "foreign_table_name",
                         "foreign_column_name", "update_rule", "delete_rule", "is_deferrable", "initially_deferred"]
    case CheckConstraints => ["table_name", "constraint_name", "check_clause"]
    case Indexes => ["table_name", "index_name", "indexdef"]
    case Enums => ["enum_name", "enum_sort_order", "enum_value"]
    case Sequences => ["sequence_name", "data_type", "start_value", "minimum_value", "maximum_value", "increment",
                       "cycle_option", "owned_by_table", "owned_by_column"]
    case RowLevelSecurity => ["table_name", "relrowsecurity", "relforcerowsecurity"]
    case Policies => ["table_name", "policy_name", "permissive", "roles", "command", "qual", "with_check"]
    case Triggers => ["table_name", "trigger_name", "action_timing", "event_manipulation", "action_statement"]
  }

  function SortColumns(s: Section): seq<string> {
    match s
    case Tables => ["table_name"]
    case Columns => ["table_name", "ordinal_position", "column_name"]
    case PrimaryKeys => ["table_name", "constraint_name", "ordinal_position", "column_name"]
    case UniqueConstraints => ["table_name", "constraint_name", "ordinal_position", "column_name"]
    case ForeignKeys => FK_KEYS
    case CheckConstraints => ["table_name", "constraint_name", "check_clause"]
    case Indexes => ["table_name", "index_name", "indexdef"]
    case Enums => ["enum_name", "enum_sort_order", "enum_value"]
    case Sequences => ["sequence_name", "owned_by_table", "owned_by_column"]
    case RowLevelSecurity => ["table_name"]
    case Policies => ["table_name", "policy_name", "command"]
    case Triggers => ["table_name", "trigger_name", "event_manipulation"]
  }

  datatype Snapshot = Snapshot(schema: string, sections: map<Section, seq<Row>>)

  function PickRows(rows: seq<Row>, keys: seq<string>): seq<Row> {
    seq(|rows|, i requires 0 <= i < |rows| => Pick(rows[i], keys))
  }
  function Picked(s: Snapshot, section: Section): seq<Row>
    requires section in s.sections
  {
    PickRows(s.sections[section], PickedColumns(section))
  }

  function CanonicalRows(collate: Collation, section: Section, rows: seq<Row>): seq<Row> {
    SortRowsByKeys(collate, PickRows(rows, PickedColumns(section)), SortColumns(section))
  }
  function CanonicalizeSchemaSnapshot(collate: Collation, raw: Snapshot): Snapshot {
    Snapshot(raw.schema, map section | section in raw.sections ::
      CanonicalRows(collate, section, raw.sections[section]))
  }

  /** Every section is present, and the sort columns of its rows are of one type each. */
  ghost predicate Homogeneous(s: Snapshot, kinds: map<Section, Kinds>) {
    forall section: Section :: section in s.sections && section in kinds &&
      Within(Conforming(SortColumns(section), kinds[section]), Picked(s, section))
  }

  // ---- The normal form ----

  /** Rows of the section with the same sort key appear alike and in the same order. */
  ghost predicate SameClasses(collate: Collation, section: Section, kinds: Kinds, a: seq<Row>, b: seq<Row>) {
    var order := RowOrder(collate, SortColumns(section));
    forall r: Row :: Conforms(r, SortColumns(section), kinds) ==> Class(order, a, r) == Class(order, b, r)
  }

  /** Two snapshots have the same canonical form exactly when the schema names agree and, in every
      section, the picked rows of each sort key are the same in the same order. */
  lemma CanonicalExactly(collate: Collation, a: Snapshot, b: Snapshot, kinds: map<Section, Kinds>)
    requires IsCollation(collate) && Homogeneous(a, kinds) && Homogeneous(b, kinds)
    ensures CanonicalizeSchemaSnapshot(collate, a) == CanonicalizeSchemaSnapshot(collate, b) <==>
            a.schema == b.schema &&
            forall section: Section ::
              SameClasses(collate, section, kinds[section], Picked(a, section), Picked(b, section))
  {
    forall section: Section
      ensures (CanonicalRows(collate, section, a.sections[section]) ==
               CanonicalRows(collate, section, b.sections[section])) <==>
              SameClasses(collate, section, kinds[section], Picked(a, section), Picked(b, section))
    {
      var dom := Conforming(SortColumns(section), kinds[section]);
      RowsConsistent(collate, SortColumns(section), kinds[section]);
      SortEqualIffClassesEqual(RowOrder(collate, SortColumns(section)), dom, Picked(a, section), Picked(b, section));
    }
    CanonicalBySection(collate, a, b);
  }

  lemma CanonicalBySection(collate: Collation, a: Snapshot, b: Snapshot)
    requires forall section: Section :: section in a.sections && section in b.sections
    ensures CanonicalizeSchemaSnapshot(collate, a) == CanonicalizeSchemaSnapshot(collate, b) <==>
            a.schema == b.schema &&
            forall section: Section ::
              CanonicalRows(collate, section, a.sections[section]) ==
                CanonicalRows(collate, section, b.sections[section])
  {
    var ca, cb := CanonicalizeSchemaSnapshot(collate, a), CanonicalizeSchemaSnapshot(collate, b);
    if ca == cb {
      forall section: Section
        ensures CanonicalRows(collate, section, a.sections[section]) ==
          CanonicalRows(collate, section, b.sections[section])
      {
        assert ca.sections[section] == cb.sections[section];
      }
    } else if forall section: Section ::
                CanonicalRows(collate, section, a.sections[section]) ==
                  CanonicalRows(collate, section, b.sections[section]) {
      assert ca.sections == cb.sections;
    }
  }

  /** When equal sort keys imply equal picked rows within each snapshot, the canonical form is a normal form for the
      schema name and the multiset of picked rows of each section. */
  lemma CanonicalIsNormalForm(collate: Collation, a: Snapshot, b: Snapshot, kinds: map<Section, Kinds>)
    requires IsCollation(collate) && Homogeneous(a, kinds) && Homogeneous(b, kinds)
    requires forall section: Section ::
      KeysDetermine(RowOrder(collate, SortColumns(section)), Picked(a, section)) &&
      KeysDetermine(RowOrder(collate, SortColumns(section)), Picked(b, section))
    ensures CanonicalizeSchemaSnapshot(collate, a) == CanonicalizeSchemaSnapshot(collate, b) <==>
            a.schema == b.schema && forall section: Section ::
              multiset(Picked(a, section)) == multiset(Picked(b, section))
  {
    forall section: Section
      ensures (CanonicalRows(collate, section, a.sections[section]) ==
               CanonicalRows(collate, section, b.sections[section])) <==>
              multiset(Picked(a, section)) == multiset(Picked(b, section))
    {
      var dom := Conforming(SortColumns(section), kinds[section]);
      RowsConsistent(collate, SortColumns(section), kinds[section]);
      SortEqualIffSameMultiset(RowOrder(collate, SortColumns(section)), dom, Picked(a, section), Picked(b, section));
    }
    CanonicalBySection(collate, a, b);
  }

  lemma PickTwice(rows: seq<Row>, keys: seq<string>)
    requires forall r :: r in rows ==> exists q: Row :: r == Pick(q, keys)
    ensures PickRows(rows, keys) == rows
  {
    forall i | 0 <= i < |rows| ensures Pick(rows[i], keys) == rows[i] {
      assert rows[i] in rows;
      var q: Row :| rows[i] == Pick(q, keys);
    }
  }

  lemma CanonicalRowsIdempotent(collate: Collation, section: Section, rows: seq<Row>, kinds: Kinds)
    requires IsCollation(collate)
    requires Within(Conforming(SortColumns(section), kinds), PickRows(rows, PickedColumns(section)))
    ensures var once := CanonicalRows(collate, section, rows); CanonicalRows(collate, section, once) == once
  {
    var keys := PickedColumns(section);
    var order, picked := RowOrder(collate, SortColumns(section)), PickRows(rows, keys);
    var once := Sort(order, picked);
    RowsConsistent(collate, SortColumns(section), kinds);
    SortPermutes(order, picked);
    forall r | r in once ensures exists q: Row :: r == Pick(q, keys) {
      assert r in picked;
      var i :| 0 <= i < |picked| && picked[i] == r;
      assert r == Pick(rows[i], keys);
    }
    PickTwice(once, keys);
    SortIdempotent(order, Conforming(SortColumns(section), kinds), picked);
  }

  /** Canonicalizing a canonical snapshot changes nothing. */
  lemma CanonicalIdempotent(collate: Collation, s: Snapshot, kinds: map<Section, Kinds>)
    requires IsCollation(collate) && Homogeneous(s, kinds)
    ensures var c := CanonicalizeSchemaSnapshot(collate, s); CanonicalizeSchemaSnapshot(collate, c) == c
  {
    var c := CanonicalizeSchemaSnapshot(collate, s);
    forall section: Section
      ensures CanonicalRows(collate, section, c.sections[section]) == c.sections[section]
    {
      CanonicalRowsIdempotent(collate, section, s.sections[section], kinds[section]);
    }
    assert CanonicalizeSchemaSnapshot(collate, c).sections == c.sections;
  }

  /** On already picked rows a section is just sorted. */
  lemma PickedIsSorted(collate: Collation, section: Section, rows: seq<Row>)
    requires forall r :: r in rows ==> Pick(r, PickedColumns(section)) == r
    ensures CanonicalRows(collate, section, rows) == Sort(RowOrder(collate, SortColumns(section)), rows)
  {
    forall i | 0 <= i < |rows| ensures Pick(rows[i], PickedColumns(section)) == rows[i] {
      assert rows[i] in rows;
    }
    assert PickRows(rows, PickedColumns(section)) == rows;
  }

  /** The canonical form of a section does not depend on the order in which rows from a given set of
      picked rows were read exactly when, on that set, the comparison by the section's sort columns
      is transitive and tells different rows apart. */
  lemma SectionForgetsOrderExactly(collate: Collation, section: Section, dom: Row -> bool)
    requires IsCollation(collate) && forall r :: dom(r) ==> Pick(r, PickedColumns(section)) == r
    ensures (forall a, b :: Within(dom, a) && Within(dom, b) && multiset(a) == multiset(b) ==>
               CanonicalRows(collate, section, a) == CanonicalRows(collate, section, b)) <==>
            Transitive(RowOrder(collate, SortColumns(section)), dom) &&
              ZeroMeansEqual(RowOrder(collate, SortColumns(section)), dom)
  {
    var order := RowOrder(collate, SortColumns(section));
    forall a | Within(dom, a) ensures CanonicalRows(collate, section, a) == Sort(order, a) {
      PickedIsSorted(collate, section, a);
    }
    RowSortForgetsOrderExactly(collate, SortColumns(section), dom);
  }

  // ---- Composite foreign keys ----

  datatype FkPair = FkPair(columnName: string, foreignColumnName: string, ordinalPosition: int)

  /** Pairs the columns of a composite key by position; lists of different length are an error. */
  function PairFkColumnsByOrdinality(local: seq<string>, foreign: seq<string>): Option<seq<FkPair>> {
    if |local| != |foreign| then None
    else Some(seq(|local|, i requires 0 <= i < |local| => FkPair(local[i], foreign[i], i + 1)))
  }

  datatype ForeignKey = ForeignKey(
    table: string, constraint: string, foreignTable: string, updateRule: string, deleteRule: string,
    deferrable: string, initiallyDeferred: string, local: seq<string>, foreign: seq<string>)

  /** How the driver delivers the 64-bit ordinality: as a number (or bigint), or as its text. */
  datatype Delivery = AsNumber | AsText
  function Ordinal(d: Delivery, n: nat): Scalar { if d == AsNumber then SNum(n) else SStr(Digits(n)) }

  function FkRow(d: Delivery, fk: ForeignKey, p: FkPair): Row
    requires p.ordinalPosition >= 0
  {
    map["table_name" := SStr(fk.table), "constraint_name" := SStr(fk.constraint),
        "column_name" := SStr(p.columnName), "ordinal_position" := Ordinal(d, p.ordinalPosition),
        "foreign_table_name" := SStr(fk.foreignTable), "foreign_column_name" := SStr(p.foreignColumnName),
        "update_rule" := SStr(fk.updateRule), "delete_rule" := SStr(fk.deleteRule),
        "is_deferrable" := SStr(fk.deferrable), "initially_deferred" := SStr(fk.initiallyDeferred)]
  }

  /** The rows of one constraint, in declared order. */
  function FkRows(d: Delivery, fk: ForeignKey): seq<Row>
    requires |fk.local| == |fk.foreign|
  {
    var pairs := PairFkColumnsByOrdinality(fk.local, fk.foreign).value;
    seq(|pairs|, i requires 0 <= i < |pairs| => FkRow(d, fk, pairs[i]))
  }
  function FkSection(d: Delivery, fks: seq<ForeignKey>): seq<Row>
    requires forall fk :: fk in fks ==> |fk.local| == |fk.foreign|
  {
    if fks == [] then [] else FkRows(d, fks[0]) + FkSection(d, fks[1..])
  }

  predicate NamedAlike(a: ForeignKey, b: ForeignKey) { a.table == b.table && a.constraint == b.constraint }
  predicate IsRowOf(row: Row, fk: ForeignKey) {
    Value(row, "table_name") == SStr(fk.table) && Value(row, "constraint_name") == SStr(fk.constraint)
  }

  function OfKey(fk: ForeignKey): Row -> bool { (row: Row) => IsRowOf(row, fk) }

  lemma FkRowFields(d: Delivery, fk: ForeignKey, p: FkPair)
    requires p.ordinalPosition >= 0
    ensures var row := FkRow(d, fk, p);
            && Value(row, "table_name") == SStr(fk.table) && Value(row, "constraint_name") == SStr(fk.constraint)
            && Value(row, "ordinal_position") == Ordinal(d, p.ordinalPosition)
            && Value(row, "column_name") == SStr(p.columnName)
            && Value(row, "foreign_column_name") == SStr(p.foreignColumnName)
  {
  }

  const FK_KEYS := ["table_name", "constraint_name", "ordinal_position", "column_name"]

  function FkKinds(d: Delivery): Kinds {
    map["table_name" := KStr, "constraint_name" := KStr, "ordinal_position" := if d == AsNumber then KNum else KStr,
        "column_name" := KStr]
  }

  lemma FkRowConforms(d: Delivery, fk: ForeignKey, p: FkPair)
    requires p.ordinalPosition >= 0
    ensures Conforms(FkRow(d, fk, p), FK_KEYS, FkKinds(d))
  {
    FkRowFields(d, fk, p);
  }

  /** Rows of one constraint compare by their ordinals. */
  lemma FkRowsCompare(collate: Collation, d: Delivery, fk: ForeignKey, p: FkPair, q: FkPair)
    requires p.ordinalPosition >= 0 && q.ordinalPosition >= 0
    ensures var c := CompareScalars(collate, Ordinal(d, p.ordinalPosition), Ordinal(d, q.ordinalPosition));
            c != 0 ==> CompareRows(collate, FK_KEYS, FkRow(d, fk, p), FkRow(d, fk, q)) == c
  {
    var l, r := FkRow(d, fk, p), FkRow(d, fk, q);
    FkRowFields(d, fk, p);
    FkRowFields(d, fk, q);
    ThirdKeyDecides(collate, FK_KEYS, l, r);
  }

  lemma ThirdKeyDecides(collate: Collation, keys: seq<string>, l: Row, r: Row)
    requires |keys| >= 3 && Value(l, keys[0]) == Value(r, keys[0]) && Value(l, keys[1]) == Value(r, keys[1])
    ensures var c := CompareScalars(collate, Value(l, keys[2]), Value(r, keys[2]));
            c != 0 ==> CompareRows(collate, keys, l, r) == c
  {
    var k1, k2 := keys[1..], keys[1..][1..];
    assert k1[0] == keys[1] && k2[0] == keys[2];
    assert CompareRows(collate, keys, l, r) == CompareRows(collate, k1, l, r) == CompareRows(collate, k2, l, r);
  }

  /** The first n ordinals are in order, as the comparator sees them. */
  ghost predicate OrdinalsAscend(collate: Collation, d: Delivery, n: nat) {
    forall i, j :: 1 <= i < j <= n ==> CompareScalars(collate, Ordinal(d, i), Ordinal(d, j)) < 0
  }
  ghost predicate OrdinalsDiffer(collate: Collation, d: Delivery, n: nat) {
    forall i, j :: 1 <= i <= n && 1 <= j <= n && i != j ==> CompareScalars(collate, Ordinal(d, i), Ordinal(d, j)) != 0
  }

  ghost predicate WellFormedKeys(fks: seq<ForeignKey>) {
    (forall fk :: fk in fks ==> |fk.local| == |fk.foreign|) &&
    forall i, j :: 0 <= i < j < |fks| ==> !NamedAlike(fks[i], fks[j])
  }

  lemma RowsOfConstraint(d: Delivery, fk: ForeignKey, other: ForeignKey, x: Row)
    requires |other.local| == |other.foreign| && x in FkRows(d, other)
    ensures IsRowOf(x, fk) <==> NamedAlike(fk, other)
  {
    var pairs := PairFkColumnsByOrdinality(other.local, other.foreign).value;
    var i :| 0 <= i < |pairs| && x == FkRow(d, other, pairs[i]);
    FkRowFields(d, other, pairs[i]);
  }

  lemma {:induction false} NoRowsElsewhere(d: Delivery, fks: seq<ForeignKey>, fk: ForeignKey, x: Row)
    requires WellFormedKeys(fks) && x in FkSection(d, fks) && IsRowOf(x, fk)
    ensures exists other :: other in fks && NamedAlike(fk, other)
  {
    if x in FkRows(d, fks[0]) {
      RowsOfConstraint(d, fk, fks[0], x);
      assert fks[0] in fks;
    } else {
      NoRowsElsewhere(d, fks[1..], fk, x);
    }
  }

  /** In the section, the rows of a constraint are those the constraint contributes. */
  lemma {:induction false} SectionCounts(d: Delivery, fks: seq<ForeignKey>, fk: ForeignKey, x: Row)
    requires WellFormedKeys(fks) && fk in fks
    ensures multiset(FkRows(d, fk))[x] == if IsRowOf(x, fk) then multiset(FkSection(d, fks))[x] else 0
  {
    var head, rest := FkRows(d, fks[0]), FkSection(d, fks[1..]);
    assert multiset(FkSection(d, fks))[x] == multiset(head)[x] + multiset(rest)[x];
    assert x in head <==> x in multiset(head);
    assert x in rest <==> x in multiset(rest);
    if x in head { RowsOfConstraint(d, fk, fks[0], x); }
    if fk == fks[0] {
      if x in rest && IsRowOf(x, fk) {
        NoRowsElsewhere(d, fks[1..], fk, x);
      }
    } else {
      assert fk in fks[1..];
      SectionCounts(d, fks[1..], fk, x);
      var j :| 0 <= j < |fks[1..]| && fks[1..][j] == fk;
      assert !NamedAlike(fks[0], fks[j + 1]);
    }
  }

  lemma {:induction false} SectionConforms(d: Delivery, fks: seq<ForeignKey>, x: Row)
    requires WellFormedKeys(fks) && x in FkSection(d, fks)
    ensures Conforms(x, FK_KEYS, FkKinds(d))
  {
    if x in FkRows(d, fks[0]) {
      var pairs := PairFkColumnsByOrdinality(fks[0].local, fks[0].foreign).value;
      var i :| 0 <= i < |pairs| && x == FkRow(d, fks[0], pairs[i]);
      FkRowConforms(d, fks[0], pairs[i]);
    } else {
      SectionConforms(d, fks[1..], x);
    }
  }

  lemma FkRowsCompareAt(collate: Collation, d: Delivery, fk: ForeignKey, i: nat, j: nat)
    requires |fk.local| == |fk.foreign| && i < |fk.local| && j < |fk.local|
    ensures var c := CompareScalars(collate, Ordinal(d, i + 1), Ordinal(d, j + 1));
            c != 0 ==> RowOrder(collate, FK_KEYS)(FkRows(d, fk)[i], FkRows(d, fk)[j]) == c
  {
    var pairs := PairFkColumnsByOrdinality(fk.local, fk.foreign).value;
    FkRowsCompare(collate, d, fk, pairs[i], pairs[j]);
  }

  /** The declared rows are in order exactly when their ordinals are; distinct rows do not tie. */
  lemma FkRowsOrdered(collate: Collation, d: Delivery, fk: ForeignKey)
    requires |fk.local| == |fk.foreign| && OrdinalsDiffer(collate, d, |fk.local|)
    ensures Sorted(RowOrder(collate, FK_KEYS), FkRows(d, fk)) <==> OrdinalsAscend(collate, d, |fk.local|)
    ensures KeysDetermine(RowOrder(collate, FK_KEYS), FkRows(d, fk))
  {
    var order, rows := RowOrder(collate, FK_KEYS), FkRows(d, fk);
    forall i, j | 0 <= i < |rows| && 0 <= j < |rows| && i != j
      ensures order(rows[i], rows[j]) == CompareScalars(collate, Ordinal(d, i + 1), Ordinal(d, j + 1)) != 0
    {
      FkRowsCompareAt(collate, d, fk, i, j);
    }
    if Sorted(order, rows) {
      forall i, j | 1 <= i < j <= |fk.local| ensures CompareScalars(collate, Ordinal(d, i), Ordinal(d, j)) < 0 {
        assert order(rows[i - 1], rows[j - 1]) <= 0;
      }
    }
  }

  lemma SelectedFromSection(
      collate: Collation, d: Delivery, fks: seq<ForeignKey>, fk: ForeignKey, picked: seq<Row>)
    requires IsCollation(collate) && WellFormedKeys(fks) && fk in fks && OrdinalsDiffer(collate, d, |fk.local|)
    requires multiset(picked) == multiset(FkSection(d, fks))
    ensures Filter(OfKey(fk), SortRowsByKeys(collate, picked, FK_KEYS)) == FkRows(d, fk) <==>
            OrdinalsAscend(collate, d, |fk.local|)
  {
    var order, dom := RowOrder(collate, FK_KEYS), Conforming(FK_KEYS, FkKinds(d));
    RowsConsistent(collate, FK_KEYS, FkKinds(d));
    SameElements(picked, FkSection(d, fks));
    forall x | x in picked ensures dom(x) { SectionConforms(d, fks, x); }
    FkRowsOrdered(collate, d, fk);
    forall x ensures multiset(FkRows(d, fk))[x] == if OfKey(fk)(x) then multiset(picked)[x] else 0 {
      SectionCounts(d, fks, fk, x);
    }
    SelectedExactly(order, dom, OfKey(fk), picked, FkRows(d, fk));
  }

  lemma SelectedExactly(order: (Row, Row) -> int, dom: Row -> bool, p: Row -> bool, picked: seq<Row>, wanted: seq<Row>)
    requires Consistent(order, dom) && Within(dom, picked) && KeysDetermine(order, wanted)
    requires forall x :: multiset(wanted)[x] == if p(x) then multiset(picked)[x] else 0
    ensures Filter(p, Sort(order, picked)) == wanted <==> Sorted(order, wanted)
  {
    if Sorted(order, wanted) {
      SelectionSorted(order, dom, p, picked, wanted);
    }
    SortIsStableSort(order, dom, picked);
    FilterSorted(order, p, Sort(order, picked));
  }

  lemma CanonicalIsSortedPick(collate: Collation, raw: seq<Row>)
    ensures CanonicalRows(collate, ForeignKeys, raw) ==
            SortRowsByKeys(collate, PickRows(raw, PickedColumns(ForeignKeys)), FK_KEYS)
  {
  }

  /** Round trip: however the rows of all foreign keys are shuffled, the canonical section lists the
      columns of a key in their declared pairs and positions exactly when the comparator sees the
      key's ordinals ascending. */
  lemma FkPairingSurvivesExactly(
      collate: Collation, d: Delivery, fks: seq<ForeignKey>, fk: ForeignKey, raw: seq<Row>)
    requires IsCollation(collate) && WellFormedKeys(fks) && fk in fks && OrdinalsDiffer(collate, d, |fk.local|)
    requires multiset(PickRows(raw, PickedColumns(ForeignKeys))) == multiset(FkSection(d, fks))
    ensures Filter(OfKey(fk), CanonicalRows(collate, ForeignKeys, raw)) == FkRows(d, fk) <==>
            OrdinalsAscend(collate, d, |fk.local|)
  {
    SelectedFromSection(collate, d, fks, fk, PickRows(raw, PickedColumns(ForeignKeys)));
    CanonicalIsSortedPick(collate, raw);
  }

  /** Numeric ordinals ascend, whatever the locale and however many columns. */
  lemma NumbersAscend(collate: Collation, n: nat)
    ensures OrdinalsAscend(collate, AsNumber, n) && OrdinalsDiffer(collate, AsNumber, n)
  {
  }

  /** Ordinals delivered as text, in a locale that orders digits and puts "10" before "2", ascend
      exactly up to nine columns. */
  lemma TextsAscendExactly(collate: Collation, n: nat)
    requires IsCollation(collate) && collate("10", "2") < 0
    requires forall i, j :: 1 <= i < j <= 9 ==> collate(Digits(i), Digits(j)) < 0
    ensures OrdinalsAscend(collate, AsText, n) <==> n <= 9
  {
    assert Digits(2) == "2" && Digits(10) == Digits(1) + Digits(0) == "10";
    if n > 9 {
      assert CompareScalars(collate, Ordinal(AsText, 2), Ordinal(AsText, 10)) >= 0;
    }
    forall i, j | 1 <= i < j <= n <= 9 ensures CompareScalars(collate, Ordinal(AsText, i), Ordinal(AsText, j)) < 0 {
      assert Digits(i) == [DIGITS[i]] && Digits(j) == [DIGITS[j]];
    }
  }

  // ---- The migration ledger ----

  datatype LedgerRow = LedgerRow(id: int, hash: string, createdAt: string)
  datatype LedgerFailure = EmptyBefore | RowCountChanged | EntriesChanged

  function IdOrder(): (LedgerRow, LedgerRow) -> int { (a: LedgerRow, b: LedgerRow) => a.id - b.id }
  function NormalizeMigrationLedger(rows: seq<LedgerRow>): seq<LedgerRow> { Sort(IdOrder(), rows) }

  /** The primary key of the ledger. */
  ghost predicate UniqueIds(rows: seq<LedgerRow>) {
    forall x, y :: x in rows && y in rows && x.id == y.id ==> x == y
  }

  /** The second run left the ledger alone: reported equal exactly when no row was added, lost or
      changed, in whatever order the rows were read. */
  lemma LedgerUnchangedIffSameRows(before: seq<LedgerRow>, after: seq<LedgerRow>)
    requires UniqueIds(before) && UniqueIds(after)
    ensures NormalizeMigrationLedger(before) == NormalizeMigrationLedger(after) <==> multiset(before) == multiset(after)
  {
    SortEqualIffSameMultiset(IdOrder(), (r: LedgerRow) => true, before, after);
  }

  method CompareMigrationLedgers(before: seq<LedgerRow>, after: seq<LedgerRow>) returns (failures: seq<LedgerFailure>)
    ensures EmptyBefore in failures <==> before == []
    ensures RowCountChanged in failures <==> |before| != |after|
    ensures EntriesChanged in failures <==> NormalizeMigrationLedger(before) != NormalizeMigrationLedger(after)
    ensures UniqueIds(before) && UniqueIds(after) ==>
              (failures == [] <==> before != [] && multiset(before) == multiset(after))
  {
    if UniqueIds(before) && UniqueIds(after) { LedgerUnchangedIffSameRows(before, after); }
    assert |multiset(before)| == |before| && |multiset(after)| == |after|;
    failures := [];
    if |before| == 0 { failures := failures + [EmptyBefore]; }
    if |after| != |before| { failures := failures + [RowCountChanged]; }
    if NormalizeMigrationLedger(before) != NormalizeMigrationLedger(after) { failures := failures + [EntriesChanged]; }
  }
}
