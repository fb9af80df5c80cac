/**
 * The cells of an uploaded table as the analysis endpoint receives them.
 *
 * Rows reach the profiler through a JSON request body, so a cell is JSON
 * `null`, a boolean, a finite number or a string. Reading a column that a row
 * does not have yields JavaScript's `undefined`, written `Absent` here, unless
 * the column names a member every plain object inherits from
 * `Object.prototype`: then the read yields that member, written `Inherited`.
 */
module Cells {
  import opened Wrappers

  datatype Value =
    | Absent
    | Null
    | Bool(b: bool)
    | Num(n: real)
    | Str(s: string)
    | Inherited(name: string)  // a method of `Object.prototype`, or the prototype itself for "__proto__"

  /** A row maps column names to cells. */
  type Row = map<string, Value>

  /**
   * The properties of `Object.prototype` (ECMAScript sections 20.1.3 and
   * B.2.2), which a row object parsed from JSON inherits.
   */
  const INHERITED_NAMES: set<string> := {
    "constructor", "hasOwnProperty", "isPrototypeOf", "propertyIsEnumerable",
    "toLocaleString", "toString", "valueOf", "__proto__",
    "__defineGetter__", "__defineSetter__", "__lookupGetter__", "__lookupSetter__"
  }

  /**
   * `row[column]`: the row's own cell; otherwise the inherited member of that
   * name; otherwise `undefined`.
   */
  function Cell(row: Row, column: string): (v: Value)
    ensures column in row ==> v == row[column]
    ensures column !in row ==> (v.Absent? <==> column !in INHERITED_NAMES)
    ensures column !in row && column in INHERITED_NAMES ==> v == Inherited(column)
  {
    if column in row then row[column]
    else if column in INHERITED_NAMES then Inherited(column)
    else Absent
  }

  /** A cell counts as present unless it is `null`, `undefined` or `""`. */
  predicate IsPresent(v: Value)
  {
    !v.Absent? && !v.Null? && v != Str("")
  }

  /**
   * The platform conversions the profiler relies on and that this model
   * keeps abstract: `Number(s)` on a string (`None` standing for `NaN`),
   * `String(n)` on a number, and `String(m)` on an inherited member (the
   * source text of a native function, or "[object Object]").
   */
  datatype Coercion = Coercion(
    parseNumber: string -> Option<real>,
    numberText: real -> string,
    memberText: string -> string)

  /** `Number(v)`; `None` is `NaN`. */
  function ToNumber(c: Coercion, v: Value): Option<real>
  {
    match v
    case Absent => None
    case Null => Some(0.0)
    case Bool(b) => Some(if b then 1.0 else 0.0)
    case Num(n) => Some(n)
    case Str(s) => c.parseNumber(s)
    case Inherited(_) => None  // an object's text is never a numeral
  }

  /** `String(v)`, the key a value is counted under in a frequency table. */
  function ToText(c: Coercion, v: Value): string
  {
    match v
    case Absent => "undefined"
    case Null => "null"
    case Bool(b) => if b then "true" else "false"
    case Num(n) => c.numberText(n)
    case Str(s) => s
    case Inherited(name) => c.memberText(name)
  }
}
