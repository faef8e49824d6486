/** The SQLite query encoder: a serialiser from a query description to SQL text, with
    `encodeName` and `encodeValue` as parameters. */
module EncodeQuery {
  import opened Values
  import opened Wrappers
  import opened JsStrings

  /** The two leaf encoders the serialiser calls. */
  datatype Codec = Codec(name: string -> string, value: Value -> string)

  // ---------------------------------------------------------------------------
  // mapJoin / mapConcat

  /** The `reduce` of `mapJoin` over already mapped strings: the joiner goes between the
      accumulator and the next part, except while the accumulator is still empty. */
  function JoinFold(acc: string, parts: seq<string>, joiner: string): (r: string)
    ensures r == "" <==> acc == "" && forall i :: 0 <= i < |parts| ==> parts[i] == ""
    decreases |parts|
  {
    if |parts| == 0 then acc
    else JoinFold(if acc == "" then parts[0] else acc + joiner + parts[0], parts[1..], joiner)
  }

  /** `mapJoin(array, mapper, joiner)`, given `array.map(mapper)`. */
  function MapJoin(parts: seq<string>, joiner: string): (r: string)
    ensures |parts| == 0 ==> r == ""
    ensures r == "" <==> forall i :: 0 <= i < |parts| ==> parts[i] == ""
  {
    JoinFold("", parts, joiner)
  }

  predicate NonEmptyParts(parts: seq<string>)
  {
    forall i :: 0 <= i < |parts| ==> parts[i] != ""
  }

  lemma {:induction false} JoinFoldIsJoin(acc: string, parts: seq<string>, joiner: string)
    requires acc != "" && |parts| > 0 && NonEmptyParts(parts)
    ensures JoinFold(acc, parts, joiner) == acc + joiner + Join(parts, joiner)
    decreases |parts|
  {
    if |parts| > 1 {
      JoinFoldIsJoin(acc + joiner + parts[0], parts[1..], joiner);
      assert Join(parts, joiner) == parts[0] + joiner + Join(parts[1..], joiner);
    }
  }

  /** When no mapped part is empty, `mapJoin` is an ordinary join. */
  lemma MapJoinIsJoin(parts: seq<string>, joiner: string)
    ensures NonEmptyParts(parts) ==> MapJoin(parts, joiner) == Join(parts, joiner)
  {
    if NonEmptyParts(parts) && |parts| > 0 {
      assert JoinFold("", parts, joiner) == JoinFold(parts[0], parts[1..], joiner);
      if |parts| > 1 {
        JoinFoldIsJoin(parts[0], parts[1..], joiner);
      }
    }
  }

  /** `mapConcat(array, mapper)`, given `array.map(mapper)`: a left fold of `+`. */
  function MapConcat(parts: seq<string>): (r: string)
    ensures |parts| == 0 ==> r == ""
    decreases |parts|
  {
    if |parts| == 0 then "" else MapConcat(parts[..|parts| - 1]) + parts[|parts| - 1]
  }

  /** The left fold of `mapConcat` is `Array.prototype.join` with an empty joiner. */
  lemma {:induction false} MapConcatIsJoin(parts: seq<string>)
    ensures MapConcat(parts) == Join(parts, "")
    decreases |parts|
  {
    if |parts| > 1 {
      var front := parts[..|parts| - 1];
      var last := parts[|parts| - 1];
      MapConcatIsJoin(front);
      assert parts == front + [last];
      JoinAppend(front, [last], "");
      assert Join([last], "") == last;
    } else if |parts| == 1 {
      assert parts[..0] == [];
    }
  }

  // ---------------------------------------------------------------------------
  // The query description

  datatype Operator = Eq | NotEq | Gt | Gte | WeakGt | Lt | Lte | OneOf | NotIn | Between | Like

  /** The right operand of a comparison: a list of values, a column, or a single value
      (`Undefined` when absent). */
  datatype ComparisonRight = ComparisonRight(values: Option<seq<Value>>, column: Option<string>, value: Value)

  datatype Comparison = Comparison(operator: Operator, right: ComparisonRight)

  datatype Where =
    | WhereCondition(left: string, comparison: Comparison)
    | And(conditions: seq<Where>)
    | Or(conditions: seq<Where>)

  /** An `on(table, column, comparison)` condition on an associated table. */
  datatype On = On(table: string, left: string, comparison: Comparison)

  datatype QueryDescription = QueryDescription(where: seq<Where>, join: seq<On>)

  datatype Association = BelongsTo(key: string) | HasMany(foreignKey: string)

  datatype Query = Query(table: string, description: QueryDescription, associations: seq<(string, Association)>)

  /** A single value operand. */
  function ValueRight(v: Value): ComparisonRight
  {
    ComparisonRight(None, None, v)
  }

  /** A column operand. */
  function ColumnRight(column: string): ComparisonRight
  {
    ComparisonRight(None, Some(column), Undefined)
  }

  /** `comparisonRight.column` is truthy: present and not the empty string. */
  predicate HasColumn(right: ComparisonRight)
  {
    right.column.Some? && right.column.value != ""
  }

  predicate StartsWith(s: string, prefix: string)
  {
    |prefix| <= |s| && s[..|prefix|] == prefix
  }

  predicate EndsWith(s: string, suffix: string)
  {
    |suffix| <= |s| && s[|s| - |suffix|..] == suffix
  }

  lemma StartsWithSelf(x: string, y: string)
    ensures StartsWith(x + y, x)
  {
    assert (x + y)[..|x|] == x;
  }

  lemma EndsWithSelf(x: string, y: string)
    ensures EndsWith(x + y, y)
  {
    assert (x + y)[|x + y| - |y|..] == y;
  }

  // ---------------------------------------------------------------------------
  // Encoding

  /** `values[i]`, `undefined` past the end. */
  function At(values: seq<Value>, i: nat): Value
  {
    if i < |values| then values[i] else Undefined
  }

  function EncodedValues(codec: Codec, values: seq<Value>): (r: seq<string>)
    ensures |r| == |values| && forall i :: 0 <= i < |values| ==> r[i] == codec.value(values[i])
  {
    seq(|values|, i requires 0 <= i < |values| => codec.value(values[i]))
  }

  /** `encodeValues`: a parenthesised, comma separated list. */
  function EncodeValues(codec: Codec, values: seq<Value>): (r: string)
    ensures (forall v :: codec.value(v) != "") ==> r == "(" + Join(EncodedValues(codec, values), ", ") + ")"
  {
    var parts := EncodedValues(codec, values);
    MapJoinIsJoin(parts, ", ");
    "(" + MapJoin(parts, ", ") + ")"
  }

  /** `table.column` with both names encoded. */
  function Qualified(codec: Codec, table: string, column: string): string
  {
    codec.name(table) + "." + codec.name(column)
  }

  /** `getComparisonRight`. */
  function GetComparisonRight(codec: Codec, table: string, right: ComparisonRight): (r: string)
    ensures right.values.Some? && (forall v :: codec.value(v) != "") ==>
      r == "(" + Join(EncodedValues(codec, right.values.value), ", ") + ")"
    ensures right.values.None? && HasColumn(right) ==> r == Qualified(codec, table, right.column.value)
    ensures right.values.None? && !HasColumn(right) && !right.value.Undefined? ==> r == codec.value(right.value)
    ensures right.values.None? && !HasColumn(right) && right.value.Undefined? ==> r == "null"
  {
    if right.values.Some? then EncodeValues(codec, right.values.value)
    else if HasColumn(right) then Qualified(codec, table, right.column.value)
    else if !right.value.Undefined? then codec.value(right.value)
    else "null"
  }

  /** The `operators` table of SQL keywords; equality is `is` / `is not` so that
      comparisons with NULL work. */
  function Keyword(op: Operator): (r: string)
    ensures r != ""
    ensures r == "is" <==> op == Eq
    ensures r == "is not" <==> op == NotEq
  {
    match op
    case Eq => "is"
    case NotEq => "is not"
    case Gt => ">"
    case Gte => ">="
    case WeakGt => ">"
    case Lt => "<"
    case Lte => "<="
    case OneOf => "in"
    case NotIn => "not in"
    case Between => "between"
    case Like => "like"
  }

  /** `encodeComparison`: the operator and the right operand. */
  function EncodeComparison(codec: Codec, table: string, c: Comparison): (r: string)
    ensures r == "" <==> c.operator == Between && c.right.values.None?
  {
    if c.operator == Between then
      if c.right.values.Some? then
        "between " + codec.value(At(c.right.values.value, 0)) + " and " + codec.value(At(c.right.values.value, 1))
      else ""
    else Keyword(c.operator) + " " + GetComparisonRight(codec, table, c.right)
  }

  /** A condition that needs no rewriting: `table.left <comparison>`. */
  function EncodeSimpleCondition(codec: Codec, table: string, left: string, c: Comparison): (r: string)
    ensures r != ""
  {
    Qualified(codec, table, left) + " " + EncodeComparison(codec, table, c)
  }

  /** `weakGt` against a column, rewritten as `left > right or (left is not null and right is null)`. */
  function WeakGtExpansion(left: string, c: Comparison): Where
    requires HasColumn(c.right)
  {
    Or([WhereCondition(left, Comparison(Gt, ColumnRight(c.right.column.value))),
        And([WhereCondition(left, Comparison(NotEq, ValueRight(Null))),
             WhereCondition(c.right.column.value, Comparison(Eq, ValueRight(Null)))])])
  }

  /** `encodeWhereCondition`. */
  function EncodeWhereCondition(codec: Codec, table: string, left: string, c: Comparison): (r: string)
    ensures r != ""
  {
    if c.operator == WeakGt && HasColumn(c.right) then
      var column := c.right.column.value;
      "(" + MapJoin([EncodeSimpleCondition(codec, table, left, Comparison(Gt, ColumnRight(column))),
                     "(" + MapJoin([EncodeSimpleCondition(codec, table, left, Comparison(NotEq, ValueRight(Null))),
                                    EncodeSimpleCondition(codec, table, column, Comparison(Eq, ValueRight(Null)))],
                                   " and ") + ")"],
                    " or ") + ")"
    else EncodeSimpleCondition(codec, table, left, c)
  }

  /** `encodeWhere(table)(where)`. */
  function EncodeWhere(codec: Codec, table: string, w: Where): (r: string)
    ensures r != ""
    decreases w, 1
  {
    match w
    case And(conditions) => "(" + EncodeAndOr(codec, "and", table, conditions) + ")"
    case Or(conditions) => "(" + EncodeAndOr(codec, "or", table, conditions) + ")"
    case WhereCondition(left, c) => EncodeWhereCondition(codec, table, left, c)
  }

  /** `where.map(encodeWhere(table))`. */
  function EncodeWheres(codec: Codec, table: string, ws: seq<Where>): (r: seq<string>)
    ensures |r| == |ws|
    ensures forall i :: 0 <= i < |ws| ==> r[i] == EncodeWhere(codec, table, ws[i])
    decreases ws, 0
  {
    if |ws| == 0 then [] else [EncodeWhere(codec, table, ws[0])] + EncodeWheres(codec, table, ws[1..])
  }

  /** `encodeAndOr(op, table, andOr)`. */
  function EncodeAndOr(codec: Codec, op: string, table: string, conditions: seq<Where>): (r: string)
    ensures r == "" <==> |conditions| == 0
    decreases conditions, 2
  {
    if |conditions| > 0 then
      var parts := EncodeWheres(codec, table, conditions);
      assert parts[0] != "";
      MapJoin(parts, " " + op + " ")
    else ""
  }

  /** `encodeOn`. */
  function EncodeOn(codec: Codec, on: On): (r: string)
    ensures r != ""
  {
    EncodeWhereCondition(codec, on.table, on.left, on.comparison)
  }

  function EncodeOns(codec: Codec, ons: seq<On>): (r: seq<string>)
    ensures |r| == |ons| && forall i :: 0 <= i < |ons| ==> r[i] == EncodeOn(codec, ons[i])
  {
    seq(|ons|, i requires 0 <= i < |ons| => EncodeOn(codec, ons[i]))
  }

  /** The `where` clause built from the joined `on` and `where` conditions: ` and `
      between them only when both are present, nothing at all when both are empty. */
  function WhereClause(joins: string, wheres: string): (r: string)
    ensures r == "" <==> joins == "" && wheres == ""
    ensures r != "" ==> StartsWith(r, " where ")
  {
    if |joins| > 0 || |wheres| > 0 then
      var joiner := if |wheres| > 0 && |joins| > 0 then " and " else "";
      StartsWithSelf(" where ", joins + joiner + wheres);
      " where " + (joins + joiner + wheres)
    else ""
  }

  /** `encodeConditions`: the `where` clause, `on` conditions first. */
  function EncodeConditions(codec: Codec, table: string, description: QueryDescription): (r: string)
    ensures r == "" <==> |description.where| == 0 && |description.join| == 0
    ensures r != "" ==> StartsWith(r, " where ")
  {
    var ws := EncodeWheres(codec, table, description.where);
    var os := EncodeOns(codec, description.join);
    assert |ws| > 0 ==> ws[0] != "";
    assert |os| > 0 ==> os[0] != "";
    WhereClause(MapJoin(os, " and "), MapJoin(ws, " and "))
  }

  /** `encodeMethod`. */
  function EncodeMethod(codec: Codec, table: string, countMode: bool, needsDistinct: bool): (r: string)
    ensures StartsWith(r, if countMode then "select count(" else "select ")
    ensures EndsWith(r, " from " + codec.name(table))
  {
    if countMode then
      if needsDistinct then
        "select count(distinct " + codec.name(table) + ".\"id\") as \"count\" from " + codec.name(table)
      else "select count(*) as \"count\" from " + codec.name(table)
    else if needsDistinct then "select distinct " + codec.name(table) + ".* from " + codec.name(table)
    else "select " + codec.name(table) + ".* from " + codec.name(table)
  }

  /** `encodeAssociation(mainTable)([joinedTable, association])`. */
  function EncodeAssociation(codec: Codec, mainTable: string, joined: (string, Association)): (r: string)
    ensures StartsWith(r, " join " + codec.name(joined.0) + " on " + codec.name(joined.0))
    // belongs_to: the joined table's id equals the main table's key column
    ensures joined.1.BelongsTo? ==>
      EndsWith(r, codec.name(joined.0) + (".\"id\" = " + codec.name(mainTable) + "." + codec.name(joined.1.key)))
    // has_many: the joined table's foreign key equals the main table's id
    ensures joined.1.HasMany? ==>
      EndsWith(r, codec.name(joined.0) + ("." + codec.name(joined.1.foreignKey) + " = " + codec.name(mainTable) + ".\"id\""))
  {
    var (joinedTable, association) := joined;
    var head := " join " + codec.name(joinedTable) + " on ";
    var rest := match association
      case BelongsTo(key) => ".\"id\" = " + codec.name(mainTable) + "." + codec.name(key)
      case HasMany(foreignKey) => "." + codec.name(foreignKey) + " = " + codec.name(mainTable) + ".\"id\"";
    assert head + (codec.name(joinedTable) + rest) == (head + codec.name(joinedTable)) + rest;
    StartsWithSelf(head + codec.name(joinedTable), rest);
    EndsWithSelf(head, codec.name(joinedTable) + rest);
    head + (codec.name(joinedTable) + rest)
  }

  /** `encodeJoin`. */
  function EncodeJoin(codec: Codec, table: string, associations: seq<(string, Association)>): (r: string)
    ensures r == Join(EncodedAssociations(codec, table, associations), "")
  {
    if |associations| > 0 then
      MapConcatIsJoin(EncodedAssociations(codec, table, associations));
      MapConcat(EncodedAssociations(codec, table, associations))
    else ""
  }

  function EncodedAssociations(codec: Codec, table: string, associations: seq<(string, Association)>): (r: seq<string>)
    ensures |r| == |associations|
    ensures forall i :: 0 <= i < |associations| ==> r[i] == EncodeAssociation(codec, table, associations[i])
  {
    seq(|associations|, i requires 0 <= i < |associations| => EncodeAssociation(codec, table, associations[i]))
  }

  /** Some association the query joins is has-many, so rows may repeat. */
  predicate NeedsDistinct(q: Query)
  {
    |q.description.join| > 0 && exists i :: 0 <= i < |q.associations| && q.associations[i].1.HasMany?
  }

  /** The associations joined: all of them when there is an `on` condition, else none. */
  function JoinedAssociations(q: Query): seq<(string, Association)>
  {
    if |q.description.join| > 0 then q.associations else []
  }

  predicate HasToManyJoins(associations: seq<(string, Association)>)
  {
    exists i :: 0 <= i < |associations| && associations[i].1.HasMany?
  }

  /** `encodeQuery(query, countMode)`. */
  function EncodeQuery(codec: Codec, q: Query, countMode: bool): (r: string)
    ensures StartsWith(r, EncodeMethod(codec, q.table, countMode, NeedsDistinct(q)))
  {
    var associations := JoinedAssociations(q);
    ToManyJoinsAreNeedsDistinct(q);
    StartsWithSelf(EncodeMethod(codec, q.table, countMode, NeedsDistinct(q)),
                   EncodeJoin(codec, q.table, associations) + EncodeConditions(codec, q.table, q.description));
    EncodeMethod(codec, q.table, countMode, HasToManyJoins(associations))
      + EncodeJoin(codec, q.table, associations)
      + EncodeConditions(codec, q.table, q.description)
  }

  // ---------------------------------------------------------------------------
  // Properties of the encoding

  lemma {:induction false} JoinAppend(a: seq<string>, b: seq<string>, joiner: string)
    requires |a| > 0 && |b| > 0
    ensures Join(a + b, joiner) == Join(a, joiner) + joiner + Join(b, joiner)
    decreases |a|
  {
    if |a| == 1 {
      assert (a + b)[1..] == b;
    } else {
      assert (a + b)[1..] == a[1..] + b;
      JoinAppend(a[1..], b, joiner);
    }
  }

  /** `and`/`or` groups are parenthesised joins of their encoded members; an empty group
      encodes as `()`. */
  lemma AndOrIsJoin(codec: Codec, table: string, conditions: seq<Where>)
    ensures EncodeWhere(codec, table, And(conditions)) == "(" + Join(EncodeWheres(codec, table, conditions), " and ") + ")"
    ensures EncodeWhere(codec, table, Or(conditions)) == "(" + Join(EncodeWheres(codec, table, conditions), " or ") + ")"
  {
    var parts := EncodeWheres(codec, table, conditions);
    assert NonEmptyParts(parts) by {
      forall i | 0 <= i < |parts| ensures parts[i] != "" {
        assert parts[i] == EncodeWhere(codec, table, conditions[i]);
      }
    }
    MapJoinIsJoin(parts, " and ");
    MapJoinIsJoin(parts, " or ");
    assert " " + "and" + " " == " and ";
    assert " " + "or" + " " == " or ";
    assert EncodeWhere(codec, table, And(conditions)) == "(" + EncodeAndOr(codec, "and", table, conditions) + ")";
    assert EncodeWhere(codec, table, Or(conditions)) == "(" + EncodeAndOr(codec, "or", table, conditions) + ")";
  }

  /** A `weakGt` against a column encodes exactly as its expansion
      `or(gt(right), and(left is not null, right is null))` would. */
  lemma WeakGtColumnIsExpansion(codec: Codec, table: string, left: string, c: Comparison)
    requires c.operator == WeakGt && HasColumn(c.right)
    ensures EncodeWhere(codec, table, WhereCondition(left, c)) == EncodeWhere(codec, table, WeakGtExpansion(left, c))
  {
    var column := c.right.column.value;
    var gt := WhereCondition(left, Comparison(Gt, ColumnRight(column)));
    var notNull := WhereCondition(left, Comparison(NotEq, ValueRight(Null)));
    var isNull := WhereCondition(column, Comparison(Eq, ValueRight(Null)));
    var inner := And([notNull, isNull]);
    var a := EncodeSimpleCondition(codec, table, left, Comparison(Gt, ColumnRight(column)));
    var b := EncodeSimpleCondition(codec, table, left, Comparison(NotEq, ValueRight(Null)));
    var d := EncodeSimpleCondition(codec, table, column, Comparison(Eq, ValueRight(Null)));
    assert EncodeWhere(codec, table, WhereCondition(left, c))
        == "(" + MapJoin([a, "(" + MapJoin([b, d], " and ") + ")"], " or ") + ")";
    assert EncodeWhere(codec, table, gt) == a;
    assert EncodeWhere(codec, table, notNull) == b;
    assert EncodeWhere(codec, table, isNull) == d;
    var innerParts := EncodeWheres(codec, table, [notNull, isNull]);
    assert innerParts == [b, d];
    assert EncodeWhere(codec, table, inner) == "(" + MapJoin([b, d], " and ") + ")" by {
      assert " " + "and" + " " == " and ";
      assert EncodeWhere(codec, table, inner) == "(" + EncodeAndOr(codec, "and", table, [notNull, isNull]) + ")";
    }
    var outerParts := EncodeWheres(codec, table, [gt, inner]);
    assert outerParts == [a, "(" + MapJoin([b, d], " and ") + ")"];
    assert EncodeWhere(codec, table, WeakGtExpansion(left, c)) == "(" + EncodeAndOr(codec, "or", table, [gt, inner]) + ")";
    assert " " + "or" + " " == " or ";
  }

  /** `oneOf` encodes as `table.left in (v1, v2, ...)`. */
  lemma OneOfEncoding(codec: Codec, table: string, left: string, values: seq<Value>)
    requires forall v :: codec.value(v) != ""
    ensures EncodeWhere(codec, table, WhereCondition(left, Comparison(OneOf, ComparisonRight(Some(values), None, Undefined))))
         == Qualified(codec, table, left) + " in (" + Join(EncodedValues(codec, values), ", ") + ")"
  {
  }

  /** `between` encodes its two bounds literally when a value list is given, and the
      comparison is left empty without one; a short list encodes the missing bounds as
      `undefined` would be. */
  lemma BetweenEncoding(codec: Codec, table: string, left: string, right: ComparisonRight)
    ensures right.values.Some? ==>
      EncodeWhere(codec, table, WhereCondition(left, Comparison(Between, right)))
        == Qualified(codec, table, left) + " between " + codec.value(At(right.values.value, 0))
           + " and " + codec.value(At(right.values.value, 1))
    ensures right.values.Some? && |right.values.value| >= 2 ==>
      EncodeComparison(codec, table, Comparison(Between, right))
        == "between " + codec.value(right.values.value[0]) + " and " + codec.value(right.values.value[1])
    ensures right.values.None? ==>
      EncodeWhere(codec, table, WhereCondition(left, Comparison(Between, right))) == Qualified(codec, table, left) + " "
  {
    if right.values.Some? {
      var vs := right.values.value;
      var tail := codec.value(At(vs, 0)) + " and " + codec.value(At(vs, 1));
      assert EncodeComparison(codec, table, Comparison(Between, right)) == "between " + tail;
      assert " " + ("between " + tail) == " between " + tail;
    }
  }

  /** Equality is encoded with `is` / `is not` (so that a NULL operand compares as
      intended), every other operator with its own keyword, before the right operand. */
  lemma EqualityKeywords(codec: Codec, table: string, left: string, c: Comparison)
    requires c.operator != Between && !(c.operator == WeakGt && HasColumn(c.right))
    ensures EncodeWhere(codec, table, WhereCondition(left, c))
         == Qualified(codec, table, left) + " " + Keyword(c.operator) + " " + GetComparisonRight(codec, table, c.right)
    ensures c.operator == Eq && c.right.values.None? && !HasColumn(c.right) ==>
      EncodeWhere(codec, table, WhereCondition(left, c))
        == Qualified(codec, table, left) + " is " + (if c.right.value.Undefined? then "null" else codec.value(c.right.value))
    ensures c.operator == NotEq && c.right.values.None? && !HasColumn(c.right) ==>
      EncodeWhere(codec, table, WhereCondition(left, c))
        == Qualified(codec, table, left) + " is not " + (if c.right.value.Undefined? then "null" else codec.value(c.right.value))
  {
    var q := Qualified(codec, table, left);
    var k := Keyword(c.operator);
    var g := GetComparisonRight(codec, table, c.right);
    assert EncodeWhere(codec, table, WhereCondition(left, c)) == q + " " + (k + " " + g);
    assert q + " " + (k + " " + g) == q + " " + k + " " + g;
    if c.operator == Eq {
      assert q + " " + "is" + " " + g == q + " is " + g;
    } else if c.operator == NotEq {
      assert q + " " + "is not" + " " + g == q + " is not " + g;
    }
  }

  /** Operators share a keyword only in the one intended case: `weakGt` against a value
      is a plain `>`. */
  lemma KeywordsDistinct(a: Operator, b: Operator)
    ensures Keyword(a) == Keyword(b) <==> a == b || ((a == Gt || a == WeakGt) && (b == Gt || b == WeakGt))
  {
  }

  /** Two `mapJoin`s glued by the joiner (only when both are non-empty) join the
      concatenated list. */
  lemma {:induction false} MapJoinTwo(os: seq<string>, ws: seq<string>, joiner: string)
    requires NonEmptyParts(os) && NonEmptyParts(ws)
    ensures (if |os| > 0 && |ws| > 0 then MapJoin(os, joiner) + joiner + MapJoin(ws, joiner)
             else MapJoin(os, joiner) + MapJoin(ws, joiner)) == Join(os + ws, joiner)
  {
    MapJoinIsJoin(ws, joiner);
    MapJoinIsJoin(os, joiner);
    if |ws| > 0 && |os| > 0 {
      JoinAppend(os, ws, joiner);
    } else if |ws| > 0 {
      assert os + ws == ws;
    } else {
      assert os + ws == os;
    }
  }

  /** The `where` clause lists the `on` conditions and then the `where` conditions as one
      `and`-joined list, and is absent exactly when both are empty. */
  lemma ConditionsAreOneConjunction(codec: Codec, table: string, description: QueryDescription)
    ensures EncodeConditions(codec, table, description) ==
      if |description.where| == 0 && |description.join| == 0 then ""
      else " where " + Join(EncodeOns(codec, description.join) + EncodeWheres(codec, table, description.where), " and ")
  {
    var ws := EncodeWheres(codec, table, description.where);
    var os := EncodeOns(codec, description.join);
    assert NonEmptyParts(ws) by {
      forall i | 0 <= i < |ws| ensures ws[i] != "" {
        assert ws[i] == EncodeWhere(codec, table, description.where[i]);
      }
    }
    assert NonEmptyParts(os) by {
      forall i | 0 <= i < |os| ensures os[i] != "" {
        assert os[i] == EncodeOn(codec, description.join[i]);
      }
    }
    MapJoinTwo(os, ws, " and ");
    var wheres := MapJoin(ws, " and ");
    var joins := MapJoin(os, " and ");
    assert EncodeConditions(codec, table, description) == WhereClause(joins, wheres);
    if |ws| > 0 || |os| > 0 {
      assert |wheres| > 0 <==> |ws| > 0;
      assert |joins| > 0 <==> |os| > 0;
      var joiner := if |wheres| > 0 && |joins| > 0 then " and " else "";
      assert joins + joiner + wheres == Join(os + ws, " and ");
      assert WhereClause(joins, wheres) == " where " + (joins + joiner + wheres);
    }
  }

  /** Every encoded name starts with a double quote, as `encodeName` guarantees. */
  ghost predicate QuotesNames(codec: Codec)
  {
    forall n :: |codec.name(n)| > 0 && codec.name(n)[0] == '"'
  }

  lemma StartsWithAppend(x: string, y: string, prefix: string)
    requires |prefix| <= |x|
    ensures StartsWith(x + y, prefix) <==> StartsWith(x, prefix)
  {
    assert (x + y)[..|prefix|] == x[..|prefix|];
  }

  /** The select clause opens with `distinct` exactly when it is asked to. */
  lemma MethodDistinctPrefix(codec: Codec, table: string, distinct: bool)
    requires |codec.name(table)| > 0 && codec.name(table)[0] == '"'
    ensures StartsWith(EncodeMethod(codec, table, false, distinct), "select distinct ") <==> distinct
    ensures StartsWith(EncodeMethod(codec, table, true, distinct), "select count(distinct ") <==> distinct
    ensures |EncodeMethod(codec, table, false, distinct)| >= 16 && |EncodeMethod(codec, table, true, distinct)| >= 22
  {
    var name := codec.name(table);
    var select := EncodeMethod(codec, table, false, distinct);
    var count := EncodeMethod(codec, table, true, distinct);
    if distinct {
      assert select == "select distinct " + (name + ".* from " + name);
      assert count == "select count(distinct " + (name + ".\"id\") as \"count\" from " + name);
    } else {
      assert select == "select " + (name + ".* from " + name);
      assert select[7] == '"';
      assert count == "select count(*) as \"count\" from " + name;
      assert count[13] == '*';
    }
  }

  lemma ToManyJoinsAreNeedsDistinct(q: Query)
    ensures HasToManyJoins(JoinedAssociations(q)) == NeedsDistinct(q)
  {
  }

  /** The select is `distinct` exactly when the query joins a has-many association. */
  lemma DistinctIffToManyJoin(codec: Codec, q: Query)
    requires QuotesNames(codec)
    ensures StartsWith(EncodeQuery(codec, q, false), "select distinct ") <==> NeedsDistinct(q)
    ensures StartsWith(EncodeQuery(codec, q, true), "select count(distinct ") <==> NeedsDistinct(q)
  {
    var distinct := HasToManyJoins(JoinedAssociations(q));
    ToManyJoinsAreNeedsDistinct(q);
    var joins := EncodeJoin(codec, q.table, JoinedAssociations(q));
    var conditions := EncodeConditions(codec, q.table, q.description);
    MethodDistinctPrefix(codec, q.table, distinct);
    var select := EncodeMethod(codec, q.table, false, distinct);
    var count := EncodeMethod(codec, q.table, true, distinct);
    StartsWithAppend(select, joins, "select distinct ");
    StartsWithAppend(select + joins, conditions, "select distinct ");
    StartsWithAppend(count, joins, "select count(distinct ");
    StartsWithAppend(count + joins, conditions, "select count(distinct ");
  }

  /** Each joined association adds its own `join` clause, in the order given. */
  lemma JoinClausesInOrder(codec: Codec, table: string, associations: seq<(string, Association)>, next: (string, Association))
    ensures EncodeJoin(codec, table, associations + [next]) == EncodeJoin(codec, table, associations) + EncodeAssociation(codec, table, next)
  {
    var all := associations + [next];
    var parts := EncodedAssociations(codec, table, all);
    var front := EncodedAssociations(codec, table, associations);
    assert parts[..|parts| - 1] == front;
    assert EncodeJoin(codec, table, all) == MapConcat(front) + EncodeAssociation(codec, table, next);
    if |associations| == 0 {
      assert MapConcat(front) == "";
    }
  }

  /** Without `on` conditions no association is joined and nothing is made distinct. */
  lemma NoOnConditionsNoJoins(codec: Codec, q: Query, countMode: bool)
    requires |q.description.join| == 0
    ensures EncodeQuery(codec, q, countMode) == EncodeMethod(codec, q.table, countMode, false) + EncodeConditions(codec, q.table, q.description)
    ensures !NeedsDistinct(q)
  {
    ToManyJoinsAreNeedsDistinct(q);
  }
}
