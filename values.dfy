/**
 * The JSON-like values that node attributes and serialised records are made
 * of: dicts with string keys, lists, tuples, scalars and timezone-aware
 * datetimes.  A datetime is kept as its UTC calendar components; Python's
 * datetime type only admits valid components, and so does Instant.
 */
module Values {

  datatype DateTime = DateTime(
    year: int, month: int, day: int,
    hour: int, minute: int, second: int, microsecond: int)

  predicate IsLeapYear(y: int) {
    (y % 4 == 0 && y % 100 != 0) || y % 400 == 0
  }

  function DaysInMonth(y: int, m: int): int {
    if m == 2 then (if IsLeapYear(y) then 29 else 28)
    else if m == 4 || m == 6 || m == 9 || m == 11 then 30
    else 31
  }

  /** The ranges Python's datetime constructor accepts (MINYEAR = 1, MAXYEAR = 9999). */
  predicate ValidDateTime(d: DateTime) {
    && 1 <= d.year <= 9999
    && 1 <= d.month <= 12
    && 1 <= d.day <= DaysInMonth(d.year, d.month)
    && 0 <= d.hour <= 23
    && 0 <= d.minute <= 59
    && 0 <= d.second <= 59
    && 0 <= d.microsecond <= 999999
  }

  /** A UTC datetime. */
  type Instant = d: DateTime | ValidDateTime(d) witness DateTime(1970, 1, 1, 0, 0, 0, 0)

  datatype Value =
    | Null
    | Bool(b: bool)
    | Int(i: int)
    | Str(text: string)
    | Date(when: Instant)
    | List(items: seq<Value>)
    | Tuple(items: seq<Value>)
    | Dict(fields: map<string, Value>)
  {
    predicate IsSequence() { List? || Tuple? }
  }

  /** The value with every tuple turned into a list, which is what comes back from deserialisation. */
  function Normalize(v: Value): (r: Value)
    ensures !r.Tuple?
  {
    match v
    case Dict(m) => Dict(map k | k in m :: Normalize(m[k]))
    case List(s) => List(seq(|s|, i requires 0 <= i < |s| => Normalize(s[i])))
    case Tuple(s) => List(seq(|s|, i requires 0 <= i < |s| => Normalize(s[i])))
    case _ => v
  }
}
