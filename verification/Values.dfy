/** The values a statement binds, and what an engine answers about them. */
module Values {
  import opened Ternary
  import JsonDocuments
  import JsonSql
  import LikePatterns

  datatype Value = Null | Num(n: int) | Str(s: string) | Bool(b: bool)

  type Row = map<string, Value>

  function ColumnOf(row: Row, name: string): Value {
    if name in row then row[name] else Null
  }

  /**
   * What rendering needs to know of an engine: whether it has booleans, how it folds case, how its JSON functions are
   * called, and the text a JSON value is bound as.
   */
  datatype Dialect = Dialect(
    nativeBooleans: bool, fold: string -> string, json: JsonSql.Form, encode: JsonDocuments.Json -> string)

  /** A value as the engine's driver takes it: a boolean as a number where the engine has none. */
  function Normalize(d: Dialect, v: Value): Value {
    match v
    case Bool(b) => if d.nativeBooleans then v else Num(if b then 1 else 0)
    case _ => v
  }

  /** A database: its rows, and what it answers for SQL the query does not show. */
  datatype World = World(
    dialect: Dialect,
    rows: string -> seq<Row>,
    less: (Value, Value) -> bool,
    path: (Value, string) -> Value,
    regex: (string, string) -> bool,
    raw: (string, Row, seq<Value>) -> Tri,
    subquery: (string, Row, seq<Value>) -> bool)

  datatype CompareOp = Eq | Ne | Lt | Lte | Gt | Gte

  /** A comparison, unknown on a NULL. */
  function Compared(w: World, op: CompareOp, a: Value, b: Value): Tri {
    if a.Null? || b.Null? then Unknown
    else match op
      case Eq => Of(a == b)
      case Ne => Of(a != b)
      case Lt => Of(w.less(a, b))
      case Lte => Of(w.less(a, b) || a == b)
      case Gt => Of(w.less(b, a))
      case Gte => Of(w.less(b, a) || a == b)
  }

  function Folded(d: Dialect, v: Value): Value {
    if v.Str? then Str(d.fold(v.s)) else v
  }

  /** `v LIKE p`, false of a value that is no text. */
  function Liked(v: Value, p: Value): Tri {
    if v.Null? || p.Null? then Unknown else Of(v.Str? && p.Str? && LikePatterns.Matches(p.s, v.s))
  }

  function RegexMatched(w: World, v: Value, p: Value): Tri {
    if v.Null? || p.Null? then Unknown else Of(v.Str? && p.Str? && w.regex(v.s, p.s))
  }
}
