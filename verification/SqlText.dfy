/**
 * The text of a search condition as its tokens, and how an engine reads it: `OR` binds looser than `AND`, `AND` than
 * `NOT`.
 */
module SqlText {
  import opened Ternary
  import opened Values

  datatype Token =
    | LParen | RParen | Comma
    | KwAnd | KwOr | KwNot | KwBetween | KwIn | KwIs | KwNull | KwLike | KwEscape | KwRegexp | KwLower | KwExists
    | KwWhere
    | Symbol(op: CompareOp)
    | Column(alias: string, name: string)
    | JsonPath(alias: string, name: string, path: string)
    | Placeholder(index: nat)
    | Literal(value: Value)
    | Raw(sql: string, alias: string, arity: nat)  // SQL the query does not show, its values following it
    | SelectOne(table: string, alias: string)      // SELECT 1 FROM table alias WHERE
    | Word(text: string)                           // the rest of a statement, which no condition holds

  type Tokens = seq<Token>

  function Parens(t: Tokens): Tokens {
    [LParen] + t + [RParen]
  }

  /** `parts` with `op` between each. */
  function Join(parts: seq<Tokens>, op: Token): Tokens {
    if parts == [] then []
    else if |parts| == 1 then parts[0]
    else parts[0] + [op] + Join(parts[1..], op)
  }

  // ----- what a text parses to -----

  datatype Term = Col(alias: string, name: string) | PathOf(alias: string, name: string, path: string)
                | Param(index: nat) | Lit(value: Value) | Lower(of: Term)

  datatype Cond =
    | Both(left: Cond, right: Cond)
    | Either(left: Cond, right: Cond)
    | Negated(of: Cond)
    | Compare(op: CompareOp, a: Term, b: Term)
    | InRange(a: Term, min: Term, max: Term)
    | OneOf(a: Term, options: seq<Term>)
    | IsNull(a: Term)
    | LikeText(a: Term, pattern: Term)
    | RegexText(a: Term, pattern: Term)
    | RawCond(sql: string, alias: string, args: seq<Term>)
    | RawExists(sql: string, alias: string, args: seq<Term>)
    | RowExists(table: string, alias: string, where: Cond)

  datatype Parsed<T> = Refused | Read(value: T, rest: Tokens)

  function ParseTerm(ts: Tokens): (r: Parsed<Term>)
    ensures r.Read? ==> |r.rest| < |ts|
    decreases |ts|
  {
    if ts == [] then Refused
    else match ts[0]
      case Column(a, n) => Read(Col(a, n), ts[1..])
      case JsonPath(a, n, p) => Read(PathOf(a, n, p), ts[1..])
      case Placeholder(i) => Read(Param(i), ts[1..])
      case Literal(v) => Read(Lit(v), ts[1..])
      case KwLower =>
        if |ts| < 2 || ts[1] != LParen then Refused
        else (match ParseTerm(ts[2..])
              case Refused => Refused
              case Read(t, rest) => if rest != [] && rest[0] == RParen then Read(Lower(t), rest[1..]) else Refused)
      case _ => Refused
  }

  /** `term, term, ...` */
  function ParseTerms(ts: Tokens): (r: Parsed<seq<Term>>)
    ensures r.Read? ==> |r.rest| < |ts|
    decreases |ts|
  {
    match ParseTerm(ts)
    case Refused => Refused
    case Read(t, rest) =>
      if rest == [] || rest[0] != Comma then Read([t], rest)
      else match ParseTerms(rest[1..])
        case Refused => Refused
        case Read(more, end) => Read([t] + more, end)
  }

  /** The `n` values raw SQL is followed by. */
  function ParseArgs(n: nat, ts: Tokens): (r: Parsed<seq<Term>>)
    ensures r.Read? ==> |r.rest| <= |ts|
    decreases n
  {
    if n == 0 then Read([], ts)
    else match ParseTerm(ts)
      case Refused => Refused
      case Read(t, rest) =>
        match ParseArgs(n - 1, rest)
        case Refused => Refused
        case Read(more, end) => Read([t] + more, end)
  }

  /** What follows a predicate's left-hand side. */
  function ParseTail(a: Term, ts: Tokens): (r: Parsed<Cond>)
    ensures r.Read? ==> |r.rest| < |ts|
  {
    if ts == [] then Refused
    else match ts[0]
      case Symbol(op) =>
        (match ParseTerm(ts[1..])
         case Refused => Refused
         case Read(b, rest) => Read(Compare(op, a, b), rest))
      case KwBetween =>
        (match ParseTerm(ts[1..])
         case Refused => Refused
         case Read(min, rest) =>
           if rest == [] || rest[0] != KwAnd then Refused
           else match ParseTerm(rest[1..])
             case Refused => Refused
             case Read(max, end) => Read(InRange(a, min, max), end))
      case KwIs =>
        if |ts| >= 2 && ts[1] == KwNull then Read(IsNull(a), ts[2..])
        else if |ts| >= 3 && ts[1] == KwNot && ts[2] == KwNull then Read(Negated(IsNull(a)), ts[3..])
        else Refused
      case KwIn => ParseOptions(a, ts[1..], false)
      case KwNot => if |ts| >= 2 && ts[1] == KwIn then ParseOptions(a, ts[2..], true) else Refused
      case KwLike =>
        (match ParseTerm(ts[1..])
         case Refused => Refused
         case Read(p, rest) =>
           if |rest| >= 2 && rest[0] == KwEscape && rest[1] == Literal(Str("\\")) then Read(LikeText(a, p), rest[2..])
           else Refused)
      case KwRegexp =>
        (match ParseTerm(ts[1..])
         case Refused => Refused
         case Read(p, rest) => Read(RegexText(a, p), rest))
      case _ => Refused
  }

  /** `(term, ...)` after an `IN`. */
  function ParseOptions(a: Term, ts: Tokens, negate: bool): (r: Parsed<Cond>)
    ensures r.Read? ==> |r.rest| < |ts|
  {
    if ts == [] || ts[0] != LParen then Refused
    else match ParseTerms(ts[1..])
      case Refused => Refused
      case Read(options, rest) =>
        if rest == [] || rest[0] != RParen then Refused
        else Read(if negate then Negated(OneOf(a, options)) else OneOf(a, options), rest[1..])
  }

  function ParsePrimary(ts: Tokens): (r: Parsed<Cond>)
    ensures r.Read? ==> |r.rest| < |ts|
    decreases |ts|, 0
  {
    if ts == [] then Refused
    else match ts[0]
      case LParen =>
        (match ParseOr(ts[1..])
         case Refused => Refused
         case Read(c, rest) => if rest != [] && rest[0] == RParen then Read(c, rest[1..]) else Refused)
      case Raw(sql, alias, n) =>
        (match ParseArgs(n, ts[1..])
         case Refused => Refused
         case Read(args, rest) => Read(RawCond(sql, alias, args), rest))
      case KwExists =>
        if |ts| < 3 || ts[1] != LParen then Refused
        else if ts[2].SelectOne? then
          (match ParseOr(ts[3..])
           case Refused => Refused
           case Read(c, rest) =>
             if rest != [] && rest[0] == RParen then Read(RowExists(ts[2].table, ts[2].alias, c), rest[1..])
             else Refused)
        else if ts[2].Raw? then
          (match ParseArgs(ts[2].arity, ts[3..])
           case Refused => Refused
           case Read(args, rest) =>
             if rest != [] && rest[0] == RParen then Read(RawExists(ts[2].sql, ts[2].alias, args), rest[1..])
             else Refused)
        else Refused
      case _ =>
        match ParseTerm(ts)
        case Refused => Refused
        case Read(a, rest) => ParseTail(a, rest)
  }

  /** Any number of `NOT`s and what they negate; section 8.12 of SQL-92 has one, which `StandardGrammar` keeps to. */
  function ParseNot(ts: Tokens): (r: Parsed<Cond>)
    ensures r.Read? ==> |r.rest| < |ts|
    decreases |ts|, 1
  {
    if ts == [] || ts[0] != KwNot then ParsePrimary(ts)
    else match ParseNot(ts[1..])
      case Refused => Refused
      case Read(c, rest) => Read(Negated(c), rest)
  }

  function ParseAnd(ts: Tokens): (r: Parsed<Cond>)
    ensures r.Read? ==> |r.rest| < |ts|
    decreases |ts|, 2
  {
    match ParseNot(ts)
    case Refused => Refused
    case Read(c, rest) => AndTail(c, rest)
  }

  function AndTail(left: Cond, ts: Tokens): (r: Parsed<Cond>)
    ensures r.Read? ==> |r.rest| <= |ts|
    decreases |ts|, 3
  {
    if ts == [] || ts[0] != KwAnd then Read(left, ts)
    else match ParseNot(ts[1..])
      case Refused => Refused
      case Read(c, rest) => AndTail(Both(left, c), rest)
  }

  function ParseOr(ts: Tokens): (r: Parsed<Cond>)
    ensures r.Read? ==> |r.rest| < |ts|
    decreases |ts|, 4
  {
    match ParseAnd(ts)
    case Refused => Refused
    case Read(c, rest) => OrTail(c, rest)
  }

  function OrTail(left: Cond, ts: Tokens): (r: Parsed<Cond>)
    ensures r.Read? ==> |r.rest| <= |ts|
    decreases |ts|, 5
  {
    if ts == [] || ts[0] != KwOr then Read(left, ts)
    else match ParseAnd(ts[1..])
      case Refused => Refused
      case Read(c, rest) => OrTail(Either(left, c), rest)
  }

  // ----- what a parsed text means -----

  /** Each table in scope by its alias, which an engine matches whatever its case. */
  type Scope = map<string, Row>

  function LowerChar(c: char): char {
    if 'A' <= c <= 'Z' then c - 'A' + 'a' else c
  }

  /** A name without its case, as far as ASCII goes. */
  function CaseFolded(s: string): string {
    seq(|s|, i requires 0 <= i < |s| => LowerChar(s[i]))
  }

  function RowAt(scope: Scope, alias: string): Row {
    if CaseFolded(alias) in scope then scope[CaseFolded(alias)] else map[]
  }

  /** A placeholder reads the value bound at its number, counted from one. */
  function EvalTerm(w: World, bound: seq<Value>, scope: Scope, t: Term): Value {
    match t
    case Col(a, n) => ColumnOf(RowAt(scope, a), n)
    case PathOf(a, n, p) => w.path(ColumnOf(RowAt(scope, a), n), p)
    case Param(i) => if 1 <= i <= |bound| then bound[i - 1] else Null
    case Lit(v) => v
    case Lower(of) => Folded(w.dialect, EvalTerm(w, bound, scope, of))
  }

  function EvalTerms(w: World, bound: seq<Value>, scope: Scope, ts: seq<Term>): seq<Value> {
    seq(|ts|, i requires 0 <= i < |ts| => EvalTerm(w, bound, scope, ts[i]))
  }

  function EvalAnyEqual(w: World, a: Value, options: seq<Value>): Tri {
    if options == [] then False else Or(Compared(w, Eq, a, options[0]), EvalAnyEqual(w, a, options[1..]))
  }

  ghost function Eval(w: World, bound: seq<Value>, scope: Scope, c: Cond): Tri
    decreases c
  {
    match c
    case Both(l, r) => And(Eval(w, bound, scope, l), Eval(w, bound, scope, r))
    case Either(l, r) => Or(Eval(w, bound, scope, l), Eval(w, bound, scope, r))
    case Negated(x) => Not(Eval(w, bound, scope, x))
    case Compare(op, a, b) => Compared(w, op, EvalTerm(w, bound, scope, a), EvalTerm(w, bound, scope, b))
    case InRange(a, min, max) =>
      And(Compared(w, Gte, EvalTerm(w, bound, scope, a), EvalTerm(w, bound, scope, min)),
          Compared(w, Lte, EvalTerm(w, bound, scope, a), EvalTerm(w, bound, scope, max)))
    case OneOf(a, options) => EvalAnyEqual(w, EvalTerm(w, bound, scope, a), EvalTerms(w, bound, scope, options))
    case IsNull(a) => Of(EvalTerm(w, bound, scope, a).Null?)
    case LikeText(a, p) => Liked(EvalTerm(w, bound, scope, a), EvalTerm(w, bound, scope, p))
    case RegexText(a, p) => RegexMatched(w, EvalTerm(w, bound, scope, a), EvalTerm(w, bound, scope, p))
    case RawCond(sql, alias, args) => w.raw(sql, RowAt(scope, alias), EvalTerms(w, bound, scope, args))
    case RawExists(sql, alias, args) => Of(w.subquery(sql, RowAt(scope, alias), EvalTerms(w, bound, scope, args)))
    case RowExists(table, alias, where) =>
      Of(exists row :: row in w.rows(table) && Eval(w, bound, scope[CaseFolded(alias) := row], where) == True)
  }
}
