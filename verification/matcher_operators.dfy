/** The in-memory matcher's comparison operators, with the JavaScript coercions they rely on. */
module MatcherOperators {
  import opened Wrappers
  import opened Values

  // ---------------------------------------------------------------------------
  // JavaScript comparison semantics

  /** `ToNumber` on the values a raw holds; `None` stands for `NaN`. A string compared with
      a non-string is taken as `NaN` (numeric strings are not parsed). */
  function ToNumber(v: Value): (n: Option<int>)
    ensures n.None? <==> v.Undefined? || v.Str?
    ensures v.Num? ==> n == Some(v.n)
  {
    match v
    case Null => Some(0)
    case Undefined => None
    case Bool(b) => Some(if b then 1 else 0)
    case Num(n) => Some(n)
    case Str(_) => None
  }

  /** String `<`: lexicographic by character, a proper prefix being smaller. */
  function StrLess(a: string, b: string): bool
    decreases |a|
  {
    if |b| == 0 then false
    else if |a| == 0 then true
    else if a[0] != b[0] then a[0] < b[0]
    else StrLess(a[1..], b[1..])
  }

  /** `a < b`. */
  function JsLess(a: Value, b: Value): (r: bool)
    ensures r ==> !a.Undefined? && !b.Undefined?
    ensures a.Str? != b.Str? && (a.Str? || b.Str?) ==> !r
  {
    if a.Str? && b.Str? then StrLess(a.s, b.s)
    else match (ToNumber(a), ToNumber(b))
      case (Some(x), Some(y)) => x < y
      case _ => false
  }

  /** `a <= b`, which is `!(b < a)` except that a `NaN` operand makes it false. */
  function JsLessEq(a: Value, b: Value): (r: bool)
    ensures r ==> !a.Undefined? && !b.Undefined?
    ensures a.Str? != b.Str? && (a.Str? || b.Str?) ==> !r
  {
    if a.Str? && b.Str? then !StrLess(b.s, a.s)
    else match (ToNumber(a), ToNumber(b))
      case (Some(x), Some(y)) => x <= y
      case _ => false
  }

  /** `a == b`. */
  function LooseEquals(a: Value, b: Value): (r: bool)
    ensures IsNullish(a) && IsNullish(b) ==> r
    ensures IsNullish(a) != IsNullish(b) ==> !r
  {
    if IsNullish(a) || IsNullish(b) then IsNullish(a) && IsNullish(b)
    else if a.Str? || b.Str? then a == b
    else ToNumber(a) == ToNumber(b)
  }

  // ---------------------------------------------------------------------------
  // The operators

  /** `between(left, [lower, upper])`: inclusive at both ends, missing bounds read as `undefined`. */
  function Between(left: Value, bounds: seq<Value>): (r: bool)
    ensures |bounds| < 2 ==> !r
    ensures left.Undefined? ==> !r
  {
    var lower := if 0 < |bounds| then bounds[0] else Undefined;
    var upper := if 1 < |bounds| then bounds[1] else Undefined;
    JsLessEq(lower, left) && JsLessEq(left, upper)
  }

  /** `rawFieldEquals`: loose equality. */
  function RawFieldEquals(left: Value, right: Value): (r: bool)
    ensures left == right ==> r
    ensures IsNullish(left) && IsNullish(right) ==> r
    ensures IsNullish(left) != IsNullish(right) ==> !r
    ensures left.Str? && right.Str? ==> (r <==> left.s == right.s)
    ensures left.Num? && right.Num? ==> (r <==> left.n == right.n)
  {
    LooseEquals(left, right)
  }

  /** `notEq`: the complement of `rawFieldEquals`. */
  function NotEq(left: Value, right: Value): (r: bool)
    ensures IsNullish(left) && IsNullish(right) ==> !r
    ensures left == right ==> !r
    ensures left.Num? && right.Num? ==> (r <==> left.n != right.n)
  {
    !RawFieldEquals(left, right)
  }

  /** `noNullComparisons(operator)(left, right)`. */
  function NoNullComparisons(operator: (Value, Value) -> bool, left: Value, right: Value): (r: bool)
    ensures IsNullish(left) || IsNullish(right) ==> !r
    ensures !IsNullish(left) && !IsNullish(right) ==> r == operator(left, right)
  {
    if IsNullish(left) || IsNullish(right) then false else operator(left, right)
  }

  function JsGt(a: Value, b: Value): bool { JsLess(b, a) }
  function JsGte(a: Value, b: Value): bool { JsLessEq(b, a) }

  /** `gt`: `>` guarded against null and undefined operands. */
  function Gt(left: Value, right: Value): (r: bool)
    ensures IsNullish(left) || IsNullish(right) ==> !r
    ensures left.Num? && right.Num? ==> (r <==> left.n > right.n)
    ensures left.Str? && right.Str? ==> (r <==> StrLess(right.s, left.s))
    ensures left.Str? != right.Str? ==> !r
  {
    NoNullComparisons(JsGt, left, right)
  }

  /** `gte`: `>=` guarded against null and undefined operands. */
  function Gte(left: Value, right: Value): (r: bool)
    ensures IsNullish(left) || IsNullish(right) ==> !r
    ensures left.Num? && right.Num? ==> (r <==> left.n >= right.n)
    ensures left.Str? && right.Str? ==> (r <==> !StrLess(left.s, right.s))
    ensures left.Str? != right.Str? ==> !r
  {
    NoNullComparisons(JsGte, left, right)
  }

  /** `lt`: `<` guarded against null and undefined operands. */
  function Lt(left: Value, right: Value): (r: bool)
    ensures IsNullish(left) || IsNullish(right) ==> !r
    ensures left.Num? && right.Num? ==> (r <==> left.n < right.n)
    ensures left.Str? && right.Str? ==> (r <==> StrLess(left.s, right.s))
    ensures left.Str? != right.Str? ==> !r
  {
    NoNullComparisons(JsLess, left, right)
  }

  /** `lte`: `<=` guarded against null and undefined operands. */
  function Lte(left: Value, right: Value): (r: bool)
    ensures IsNullish(left) || IsNullish(right) ==> !r
    ensures left.Num? && right.Num? ==> (r <==> left.n <= right.n)
    ensures left.Str? && right.Str? ==> (r <==> !StrLess(right.s, left.s))
    ensures left.Str? != right.Str? ==> !r
  {
    NoNullComparisons(JsLessEq, left, right)
  }


  /** `weakGt`: `left > right`, and also true for a non-null left against a null right. */
  function WeakGt(left: Value, right: Value): (r: bool)
    ensures !IsNullish(left) && IsNullish(right) ==> r
    ensures !IsNullish(left) && !IsNullish(right) ==> r == Gt(left, right)
    ensures left.Undefined? ==> !r
    ensures left.Null? ==> (r <==> right.Num? && right.n < 0)
  {
    JsGt(left, right) || (!IsNullish(left) && IsNullish(right))
  }

  /** `handleLikeValue(v, defaultV)`. */
  function HandleLikeValue(v: Value, defaultV: string): (r: string)
    ensures v.Str? ==> r == v.s
    ensures !v.Str? ==> r == defaultV
  {
    if v.Str? then v.s else defaultV
  }

  /** `like(left, right)`, with `likeToRegexp(pattern).test(s)` given as `test(pattern, s)`. */
  function Like(test: (Value, string) -> bool, left: Value, right: Value): (r: bool)
    ensures !left.Str? ==> r == test(right, "")
    ensures left.Str? ==> r == test(right, left.s)
  {
    test(right, HandleLikeValue(left, ""))
  }

  /** `oneOf`: the list holds the left value (strict, structural equality). */
  function OneOf(left: Value, values: seq<Value>): (r: bool)
    ensures r <==> exists i :: 0 <= i < |values| && values[i] == left
  {
    left in values
  }

  /** `notIn`: `noNullComparisons(complement(contains))`; the list itself is never nullish. */
  function NotIn(left: Value, values: seq<Value>): (r: bool)
    ensures IsNullish(left) ==> !r
    ensures !IsNullish(left) ==> r == !OneOf(left, values)
  {
    if IsNullish(left) then false else !OneOf(left, values)
  }

  // ---------------------------------------------------------------------------
  // Properties

  lemma {:induction false} StrLessIrreflexive(a: string)
    ensures !StrLess(a, a)
    decreases |a|
  {
    if |a| > 0 {
      StrLessIrreflexive(a[1..]);
    }
  }

  lemma {:induction false} StrLessTransitive(a: string, b: string, c: string)
    requires StrLess(a, b) && StrLess(b, c)
    ensures StrLess(a, c)
    decreases |a|
  {
    if |a| > 0 && |b| > 0 && |c| > 0 && a[0] == b[0] && b[0] == c[0] {
      StrLessTransitive(a[1..], b[1..], c[1..]);
    }
  }

  lemma {:induction false} StrLessTotal(a: string, b: string)
    requires a != b
    ensures StrLess(a, b) || StrLess(b, a)
    decreases |a|
  {
    if |a| > 0 && |b| > 0 && a[0] == b[0] {
      assert a[1..] != b[1..] by {
        assert a == [a[0]] + a[1..] && b == [b[0]] + b[1..];
      }
      StrLessTotal(a[1..], b[1..]);
    }
  }

  /** `gt` and `lt` are mirror images, as are `gte` and `lte`. */
  lemma GtMirrorsLt(a: Value, b: Value)
    ensures Gt(a, b) == Lt(b, a)
    ensures Gte(a, b) == Lte(b, a)
  {
  }

  /** `lt` is a strict order: irreflexive and transitive. */
  lemma LtIsStrictOrder(a: Value, b: Value, c: Value)
    ensures !Lt(a, a)
    ensures Lt(a, b) && Lt(b, c) ==> Lt(a, c)
  {
    if a.Str? {
      StrLessIrreflexive(a.s);
    }
    if Lt(a, b) && Lt(b, c) && a.Str? && b.Str? && c.Str? {
      StrLessTransitive(a.s, b.s, c.s);
    }
  }

  /** `gte` is `gt` or equal, for operands neither of which is nullish. */
  lemma GteIsGtOrEqual(a: Value, b: Value)
    ensures Gte(a, b) <==> Gt(a, b) || (!IsNullish(a) && !IsNullish(b) && RawFieldEquals(a, b))
  {
    if a.Str? && b.Str? {
      StrLessIrreflexive(a.s);
      if a.s != b.s {
        StrLessTotal(a.s, b.s);
      }
      if StrLess(a.s, b.s) && StrLess(b.s, a.s) {
        StrLessTransitive(a.s, b.s, a.s);
      }
    }
  }

  /** On numbers `between` is the closed interval. */
  lemma BetweenIsClosedInterval(x: int, lower: int, upper: int)
    ensures Between(Num(x), [Num(lower), Num(upper)]) <==> lower <= x <= upper
  {
  }

  /** `between` has no null guard: a null left operand is compared as 0. */
  lemma BetweenCoercesNull(lower: int, upper: int)
    ensures Between(Null, [Num(lower), Num(upper)]) <==> lower <= 0 <= upper
  {
  }

  /** `eq` is symmetric, and `notEq` is symmetric with it. */
  lemma EqSymmetric(a: Value, b: Value)
    ensures RawFieldEquals(a, b) == RawFieldEquals(b, a)
    ensures NotEq(a, b) == NotEq(b, a)
  {
  }
}
