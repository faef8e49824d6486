/** The dynamically typed values stored in raw records and compared by the matcher. */
module Values {

  /** A JavaScript scalar: `null`, `undefined`, a boolean, a number (integers only) or a string. */
  datatype Value = Null | Undefined | Bool(b: bool) | Num(n: int) | Str(s: string)

  /** A raw record: the plain object persisted for one row, column name to value. */
  type Raw = map<string, Value>

  /** JavaScript property read: a missing column reads as `undefined`. */
  function Get(raw: Raw, column: string): (v: Value)
    ensures column !in raw ==> v == Undefined
    ensures column in raw ==> v == raw[column]
  {
    if column in raw then raw[column] else Undefined
  }

  /** Two raws no property read can tell apart (a missing key and an `undefined` value read alike). */
  ghost predicate RawEquiv(a: Raw, b: Raw)
  {
    forall column :: Get(a, column) == Get(b, column)
  }

  /** `null == v` in JavaScript: true exactly for `null` and `undefined`. */
  predicate IsNullish(v: Value)
  {
    v.Null? || v.Undefined?
  }
}
