/** PostgreSQL array literals: how a value is written as one, and how the engine reads it. */
module PgArrays {
  import opened Sequences

  /** An element as JavaScript holds it. */
  datatype Item =
    | Missing                       // null, or undefined
    | Flag(b: bool)
    | Bytes(hex: string)
    | Text(s: string)
    | Nested(items: seq<Item>)

  // ----- writing -----

  /** `s` with each `c` written as `with`. */
  function Replaced(s: string, c: char, with: string): string {
    if s == "" then "" else (if s[0] == c then with else [s[0]]) + Replaced(s[1..], c, with)
  }

  function Escaped(s: string): string {
    Replaced(Replaced(s, '\\', "\\\\"), '"', "\\\"")
  }

  function Quoted(s: string): string {
    "\"" + Escaped(s) + "\""
  }

  function Shown(item: Item): string
    decreases item, 1
  {
    match item
    case Missing => "NULL"
    case Flag(b) => if b then "true" else "false"
    case Bytes(hex) => "\"\\\\x" + hex + "\""
    case Text(s) => Quoted(s)
    case Nested(items) => ToPgArray(items)
  }

  function ToPgArray(items: seq<Item>): string
    decreases items, 1
  {
    "{" + Listed(items) + "}"
  }

  function Listed(items: seq<Item>): string
    decreases items, 0
  {
    if items == [] then ""
    else if |items| == 1 then Shown(items[0])
    else Shown(items[0]) + "," + Listed(items[1..])
  }

  // ----- reading, as section 8.15.6 of the PostgreSQL manual has it -----

  /** An element as the engine holds it. */
  datatype Pg = PgNull | PgText(s: string) | PgArray(items: seq<Pg>)

  datatype Parsed<+T> = Refused | Parsed(value: T, rest: string)

  /**
   * What a double quote opened holds, up to the one that closes it: a backslash takes the character after it as it is.
   */
  function ReadQuoted(s: string): (r: Parsed<string>)
    ensures r.Parsed? ==> |r.rest| < |s|
  {
    if s == "" then Refused
    else if s[0] == '"' then Parsed("", s[1..])
    else if s[0] == '\\' && |s| == 1 then Refused
    else
      var taken := if s[0] == '\\' then 2 else 1;
      match ReadQuoted(s[taken..])
      case Refused => Refused
      case Parsed(t, rest) => Parsed([s[taken - 1]] + t, rest)
  }

  predicate IsDelimiter(c: char) {
    c == ',' || c == '{' || c == '}' || c == '"'
  }

  /** The length of what stands unquoted. */
  function PlainLength(s: string): (n: nat)
    ensures n <= |s|
  {
    if s == "" || IsDelimiter(s[0]) then 0 else 1 + PlainLength(s[1..])
  }

  function Upper(c: char): char {
    if 'a' <= c <= 'z' then c - 'a' + 'A' else c
  }

  predicate IsNullWord(s: string) {
    |s| == 4 && Upper(s[0]) == 'N' && Upper(s[1]) == 'U' && Upper(s[2]) == 'L' && Upper(s[3]) == 'L'
  }

  /** One element: an array, a quoted text, or a word, of which `NULL` unquoted, in any case, is no value. */
  function ReadValue(s: string): (r: Parsed<Pg>)
    ensures r.Parsed? ==> |r.rest| < |s|
    decreases |s|, 0
  {
    if s == "" then Refused
    else if s[0] == '{' then
      if |s| > 1 && s[1] == '}' then Parsed(PgArray([]), s[2..])
      else match ReadItems(s[1..])
        case Refused => Refused
        case Parsed(items, rest) => Parsed(PgArray(items), rest)
    else if s[0] == '"' then
      match ReadQuoted(s[1..])
      case Refused => Refused
      case Parsed(t, rest) => Parsed(PgText(t), rest)
    else
      var n := PlainLength(s);
      if n == 0 then Refused
      else Parsed(if IsNullWord(s[..n]) then PgNull else PgText(s[..n]), s[n..])
  }

  /** Elements with a comma between each, up to the brace that closes them. */
  function ReadItems(s: string): (r: Parsed<seq<Pg>>)
    ensures r.Parsed? ==> |r.rest| < |s|
    decreases |s|, 1
  {
    match ReadValue(s)
    case Refused => Refused
    case Parsed(first, rest) =>
      if rest == "" then Refused
      else if rest[0] == '}' then Parsed([first], rest[1..])
      else if rest[0] != ',' then Refused
      else match ReadItems(rest[1..])
        case Refused => Refused
        case Parsed(more, end) => Parsed([first] + more, end)
  }

  // ----- what is written reads back -----

  /** What the engine is to hold of an element: a boolean as its word, and bytes as the text `bytea` reads. */
  function Held(item: Item): Pg
    decreases item, 1
  {
    match item
    case Missing => PgNull
    case Flag(b) => PgText(if b then "true" else "false")
    case Bytes(hex) => PgText("\\x" + hex)
    case Text(s) => PgText(s)
    case Nested(items) => PgArray(AllHeld(items))
  }

  function AllHeld(items: seq<Item>): (held: seq<Pg>)
    ensures |held| == |items|
    decreases items, 0
  {
    if items == [] then [] else [Held(items[0])] + AllHeld(items[1..])
  }

  predicate IsHex(s: string) {
    forall i :: 0 <= i < |s| ==> '0' <= s[i] <= '9' || 'a' <= s[i] <= 'f'
  }

  /** Whatever bytes an element holds are given in hexadecimal. */
  predicate BytesAreHex(item: Item)
    decreases item, 1
  {
    match item
    case Bytes(hex) => IsHex(hex)
    case Nested(items) => AllBytesAreHex(items)
    case _ => true
  }

  predicate AllBytesAreHex(items: seq<Item>)
    decreases items, 0
  {
    items != [] ==> BytesAreHex(items[0]) && AllBytesAreHex(items[1..])
  }

  /** A character as a quoted text holds it. */
  function EscapedChar(c: char): string {
    if c == '\\' then "\\\\" else if c == '"' then "\\\"" else [c]
  }

  lemma EscapedHead(s: string)
    requires s != ""
    ensures Escaped(s) == EscapedChar(s[0]) + Escaped(s[1..])
  {
    var once, more := Replaced(s, '\\', "\\\\"), Replaced(s[1..], '\\', "\\\\");
    if s[0] == '\\' {
      assert once[0] == '\\' && once[1..][0] == '\\' && once[1..][1..] == more;
      assert Replaced(once, '"', "\\\"") == "\\" + Replaced(once[1..], '"', "\\\"");
    } else {
      assert once[0] == s[0] && once[1..] == more;
    }
  }

  lemma CharReads(c: char, t: string)
    ensures ReadQuoted(EscapedChar(c) + t)
         == match ReadQuoted(t)
            case Refused => Refused
            case Parsed(read, rest) => Parsed([c] + read, rest)
  {
    var all := EscapedChar(c) + t;
    assert all[|EscapedChar(c)|..] == t;
  }

  /** A text with each quote and backslash escaped reads as itself, up to the quote that closes it. */
  lemma {:induction false} QuotedReads(s: string, rest: string)
    ensures ReadQuoted(Escaped(s) + ("\"" + rest)) == Parsed(s, rest)
    decreases |s|
  {
    if s == "" {
      assert Escaped(s) + ("\"" + rest) == "\"" + rest && ("\"" + rest)[1..] == rest;
    } else {
      QuotedReads(s[1..], rest);
      EscapedHead(s);
      CharReads(s[0], Escaped(s[1..]) + ("\"" + rest));
      Regroup(EscapedChar(s[0]), Escaped(s[1..]), "\"" + rest);
      assert s == [s[0]] + s[1..];
    }
  }

  lemma {:induction false} HexReads(hex: string, rest: string)
    requires IsHex(hex)
    ensures ReadQuoted(hex + ("\"" + rest)) == Parsed(hex, rest)
    decreases |hex|
  {
    if hex == "" {
      assert hex + ("\"" + rest) == "\"" + rest && ("\"" + rest)[1..] == rest;
    } else {
      HexReads(hex[1..], rest);
      CharReads(hex[0], hex[1..] + ("\"" + rest));
      assert hex == [hex[0]] + hex[1..];
      Regroup([hex[0]], hex[1..], "\"" + rest);
    }
  }

  /** What follows an element: a comma, a brace, or nothing. */
  predicate Ends(rest: string) {
    rest == "" || IsDelimiter(rest[0])
  }

  lemma {:induction false} WordReads(word: string, rest: string)
    requires Ends(rest) && forall c :: c in word ==> !IsDelimiter(c)
    ensures PlainLength(word + rest) == |word|
    decreases |word|
  {
    if word != "" {
      assert word[0] in word && (word + rest)[1..] == word[1..] + rest;
      WordReads(word[1..], rest);
    } else {
      assert word + rest == rest;
    }
  }

  lemma WordIsRead(word: string, rest: string)
    requires word != "" && Ends(rest) && forall c :: c in word ==> !IsDelimiter(c)
    ensures ReadValue(word + rest) == Parsed(if IsNullWord(word) then PgNull else PgText(word), rest)
  {
    WordReads(word, rest);
    assert (word + rest)[..|word|] == word && (word + rest)[|word|..] == rest;
    assert word[0] in word && (word + rest)[0] == word[0];
  }

  lemma QuoteOpens(body: string, t: string, rest: string)
    requires ReadQuoted(body) == Parsed(t, rest)
    ensures ReadValue("\"" + body) == Parsed(PgText(t), rest)
  {
    assert ("\"" + body)[1..] == body;
  }

  lemma TextReads(s: string, rest: string)
    ensures ReadValue(Quoted(s) + rest) == Parsed(PgText(s), rest)
  {
    QuotedReads(s, rest);
    QuoteOpens(Escaped(s) + ("\"" + rest), s, rest);
    RegroupAll("\"", Escaped(s), "\"", rest);
  }

  lemma BytesRead(hex: string, rest: string)
    requires IsHex(hex)
    ensures ReadValue(Shown(Bytes(hex)) + rest) == Parsed(PgText("\\x" + hex), rest)
  {
    var body := "x" + (hex + ("\"" + rest));
    HexReads(hex, rest);
    CharReads('x', hex + ("\"" + rest));
    CharReads('\\', body);
    BytesOpen(hex, rest);
    assert "\\" + ("x" + hex) == "\\x" + hex;
    QuoteOpens("\\\\" + body, "\\x" + hex, rest);
  }

  lemma BytesOpen(hex: string, rest: string)
    ensures Shown(Bytes(hex)) + rest == "\"" + ("\\\\" + ("x" + (hex + ("\"" + rest))))
  {
    assert "\"\\\\x" == "\"" + ("\\\\" + "x");
    RegroupAll("\"\\\\x", hex, "\"", rest);
  }

  /** An element reads back, whatever it is followed by, a text `NULL` apart from none. */
  lemma {:induction false} ShownReads(item: Item, rest: string)
    requires Ends(rest) && BytesAreHex(item)
    ensures ReadValue(Shown(item) + rest) == Parsed(Held(item), rest)
    decreases item, 1
  {
    match item
    case Missing => WordIsRead("NULL", rest);
    case Flag(b) => WordIsRead(if b then "true" else "false", rest);
    case Bytes(hex) => BytesRead(hex, rest);
    case Text(s) => TextReads(s, rest);
    case Nested(items) => ArrayReads(items, rest);
  }

  lemma BraceOpens(listed: string, items: seq<Pg>, rest: string)
    requires listed != "" && listed[0] != '}' && ReadItems(listed + ("}" + rest)) == Parsed(items, rest)
    ensures ReadValue("{" + listed + "}" + rest) == Parsed(PgArray(items), rest)
  {
    RegroupAll("{", listed, "}", rest);
    var all := "{" + (listed + ("}" + rest));
    assert all[1] == listed[0] && all[1..] == listed + ("}" + rest);
  }

  lemma {:induction false} ArrayReads(items: seq<Item>, rest: string)
    requires AllBytesAreHex(items)
    ensures ReadValue(ToPgArray(items) + rest) == Parsed(PgArray(AllHeld(items)), rest)
    decreases items, 1
  {
    if items == [] {
      assert ToPgArray(items) + rest == "{}" + rest && ("{}" + rest)[2..] == rest;
    } else {
      ListedReads(items, rest);
      ListedOpens(items);
      BraceOpens(Listed(items), AllHeld(items), rest);
    }
  }

  lemma ListedOpens(items: seq<Item>)
    requires items != []
    ensures Listed(items) != "" && Listed(items)[0] != '}'
  {
    assert Shown(items[0]) != "" && Shown(items[0])[0] != '}';
  }

  lemma LastReads(first: Pg, shown: string, rest: string)
    requires ReadValue(shown + ("}" + rest)) == Parsed(first, "}" + rest)
    ensures ReadItems(shown + ("}" + rest)) == Parsed([first], rest)
  {
    assert ("}" + rest)[1..] == rest;
  }

  lemma NextReads(first: Pg, shown: string, more: string, items: seq<Pg>, rest: string)
    requires ReadValue(shown + ("," + more)) == Parsed(first, "," + more)
    requires ReadItems(more) == Parsed(items, rest)
    ensures ReadItems(shown + ("," + more)) == Parsed([first] + items, rest)
  {
    assert ("," + more)[1..] == more;
  }

  lemma {:induction false} ListedReads(items: seq<Item>, rest: string)
    requires items != [] && AllBytesAreHex(items)
    ensures ReadItems(Listed(items) + ("}" + rest)) == Parsed(AllHeld(items), rest)
    decreases items, 0
  {
    if |items| == 1 {
      ShownReads(items[0], "}" + rest);
      LastReads(Held(items[0]), Shown(items[0]), rest);
      assert items[1..] == [] && AllHeld(items) == [Held(items[0])];
    } else {
      var more := Listed(items[1..]) + ("}" + rest);
      ListedReads(items[1..], rest);
      ShownReads(items[0], "," + more);
      NextReads(Held(items[0]), Shown(items[0]), more, AllHeld(items[1..]), rest);
      RegroupAll(Shown(items[0]), ",", Listed(items[1..]), "}" + rest);
    }
  }

  /** An array written as a literal is read back as it was, however it nests. */
  lemma ToPgArrayReads(items: seq<Item>)
    requires AllBytesAreHex(items)
    ensures ReadValue(ToPgArray(items)) == Parsed(PgArray(AllHeld(items)), "")
  {
    ArrayReads(items, "");
    NothingAfter(ToPgArray(items));
  }

  /** No two arrays of texts, none of them and nested arrays are written alike. */
  lemma {:induction false} TextsHeldApart(a: seq<Item>, b: seq<Item>)
    requires OnlyTexts(a) && OnlyTexts(b) && AllHeld(a) == AllHeld(b)
    ensures a == b
    decreases a
  {
    assert |a| == |b|;
    if a != [] {
      assert AllHeld(a)[0] == Held(a[0]) && AllHeld(b)[0] == Held(b[0]);
      assert AllHeld(a)[1..] == AllHeld(a[1..]) && AllHeld(b)[1..] == AllHeld(b[1..]);
      if a[0].Nested? {
        TextsHeldApart(a[0].items, b[0].items);
      }
      TextsHeldApart(a[1..], b[1..]);
      assert a == [a[0]] + a[1..] && b == [b[0]] + b[1..];
    }
  }

  predicate OnlyTexts(items: seq<Item>)
    decreases items
  {
    items != [] ==>
      && (items[0].Missing? || items[0].Text? || (items[0].Nested? && OnlyTexts(items[0].items)))
      && OnlyTexts(items[1..])
  }

  lemma {:induction false} TextsAreHex(items: seq<Item>)
    requires OnlyTexts(items)
    ensures AllBytesAreHex(items)
    decreases items
  {
    if items != [] {
      if items[0].Nested? {
        TextsAreHex(items[0].items);
      }
      TextsAreHex(items[1..]);
    }
  }

  lemma ToPgArrayTellsApart(a: seq<Item>, b: seq<Item>)
    requires OnlyTexts(a) && OnlyTexts(b) && ToPgArray(a) == ToPgArray(b)
    ensures a == b
  {
    TextsAreHex(a);
    TextsAreHex(b);
    ToPgArrayReads(a);
    ToPgArrayReads(b);
    TextsHeldApart(a, b);
  }
}
