/**
 * The JavaScript values the migration engine handles and the host functions it calls
 * (`Number(...)`, `new Date(...)`, `String(number)`, `JSON.stringify`). The host functions
 * are not re-implemented: they are uninterpreted oracles handed to the model in a `Host`.
 */
module JsHost {

  datatype Option<T> = None | Some(value: T) {
    function GetOr(default: T): T {
      match this
      case Some(v) => v
      case None => default
    }
  }

  /** A scalar value as it can stand in a flat record. */
  datatype Scalar = Null | Undefined | Bool(b: bool) | Num(x: real) | Str(s: string)

  /** A parsed, not yet flattened value: a scalar, an array, or a plain object (keys in insertion order). */
  datatype Raw = Leaf(v: Scalar) | Arr(items: seq<Raw>) | Obj(fields: seq<(string, Raw)>)

  /** The result of `Number(v)`: a finite double, NaN or an infinity. */
  datatype Number = Finite(x: real) | NaN | PlusInfinity | MinusInfinity

  /** What the engine reads from a valid `Date` object: its month (1 to 12) and its day of the month. */
  datatype MonthDay = MonthDay(month: int, day: int)

  /** The most days a month can have (February in a leap year has 29). */
  function MaxDay(month: int): int {
    if month == 2 then 29
    else if month == 4 || month == 6 || month == 9 || month == 11 then 30
    else 31
  }

  /** A month and day a real calendar has. */
  predicate IsCalendarDate(d: MonthDay) {
    1 <= d.month <= 12 && 1 <= d.day <= MaxDay(d.month)
  }

  /** A `Date` normalises an out-of-range day into the following month, so every valid date
      the host reports is a calendar date. */
  ghost predicate HasCalendarDates(host: Host) {
    forall v :: host.date(v).Some? ==> IsCalendarDate(host.date(v).value)
  }

  datatype Host = Host(
    number: Scalar -> Number,          // Number(v)
    date: Scalar -> Option<MonthDay>,  // new Date(v), None when it is an Invalid Date
    numberText: real -> string,        // String(n) for a finite number
    stringify: Raw -> string)          // JSON.stringify(v)

  /** The values the engine treats as missing: null, undefined and the empty string. */
  predicate IsEmpty(v: Scalar) {
    v == Null || v == Undefined || v == Str("")
  }

  /** The text of a scalar, as string conversion gives it. */
  function StringOf(host: Host, v: Scalar): string {
    match v
    case Null => "null"
    case Undefined => "undefined"
    case Bool(b) => if b then "true" else "false"
    case Num(x) => host.numberText(x)
    case Str(s) => s
  }

  /** The length of a string as JavaScript measures it: JavaScript strings count UTF-16 code units, so a character outside the
      Basic Multilingual Plane counts twice. */
  function JsLength(s: string): (n: nat)
    ensures |s| <= n <= 2 * |s|
  {
    if s == [] then 0 else (if s[0] as int > 0xFFFF then 2 else 1) + JsLength(s[1..])
  }

  /** A finite number with no fractional part. */
  predicate IsIntegral(x: real) {
    x.Floor as real == x
  }

  /** The whitespace set of JavaScript's `\s` and `String.prototype.trim`. */
  predicate IsJsSpace(c: char) {
    c == '\t' || c == '\n' || c == '\U{000B}' || c == '\U{000C}' || c == '\r' || c == ' ' ||
    c == '\U{00A0}' || c == '\U{1680}' || ('\U{2000}' <= c <= '\U{200A}') ||
    c == '\U{2028}' || c == '\U{2029}' || c == '\U{202F}' || c == '\U{205F}' ||
    c == '\U{3000}' || c == '\U{FEFF}'
  }

  /** The parts with the separator between consecutive ones. */
  function Join(parts: seq<string>, sep: string): string {
    if parts == [] then ""
    else if |parts| == 1 then parts[0]
    else parts[0] + sep + Join(parts[1..], sep)
  }
}
