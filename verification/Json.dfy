/** JSON text: serialization without whitespace, parsing, and their round trip. Numbers are kept as
    their literals. */
module Json {
  import opened JsMap
  import Decimal

  datatype Value =
    | Null
    | Bool(b: bool)
    | Num(literal: string)
    | Str(s: string)
    | Arr(items: seq<Value>)
    | Obj(fields: OrderedMap<string, Value>)

  // ---------- serialization ----------

  function HexDigit(d: nat): char
    requires d < 16
  {
    if d < 10 then ('0' as int + d) as char else ('a' as int + d - 10) as char
  }

  function EscapeChar(c: char): string {
    if c == '"' then "\\\"" else if c == '\\' then "\\\\"
    else if c == 8 as char then "\\b" else if c == 12 as char then "\\f"
    else if c == '\n' then "\\n" else if c == '\r' then "\\r" else if c == '\t' then "\\t"
    else if c < ' ' then ['\\', 'u', '0', '0', HexDigit(c as int / 16), HexDigit(c as int % 16)]
    else [c]
  }

  function Escape(s: string): string {
    if s == "" then "" else EscapeChar(s[0]) + Escape(s[1..])
  }

  function Quote(s: string): string {
    "\"" + Escape(s) + "\""
  }

  function Stringify(v: Value): string
    decreases v, if v.Obj? then |v.fields| + 1 else 0
  {
    match v
    case Null => "null"
    case Bool(b) => if b then "true" else "false"
    case Num(literal) => literal
    case Str(s) => Quote(s)
    case Arr(items) => "[" + StringifyItems(items) + "]"
    case Obj(fields) => "{" + StringifyFields(v, 0) + "}"
  }

  function StringifyItems(items: seq<Value>): string
    decreases items, 0
  {
    if items == [] then ""
    else if |items| == 1 then Stringify(items[0])
    else Stringify(items[0]) + "," + StringifyItems(items[1..])
  }

  function StringifyField(v: Value, i: nat): string
    requires v.Obj? && i < |v.fields|
    decreases v, 0
  {
    Quote(v.fields[i].0) + ":" + Stringify(v.fields[i].1)
  }

  /** The members of an object from position i on. */
  function StringifyFields(v: Value, i: nat): string
    requires v.Obj? && i <= |v.fields|
    decreases v, |v.fields| - i
  {
    if i == |v.fields| then ""
    else if i == |v.fields| - 1 then StringifyField(v, i)
    else StringifyField(v, i) + "," + StringifyFields(v, i + 1)
  }

  // ---------- parsing ----------

  function SkipSpace(s: string): (t: string)
    ensures |t| <= |s|
  {
    if s != "" && s[0] in " \t\n\r" then SkipSpace(s[1..]) else s
  }

  function HexValue(c: char): Option<nat> {
    if '0' <= c <= '9' then Some(c as int - '0' as int)
    else if 'a' <= c <= 'f' then Some(c as int - 'a' as int + 10)
    else if 'A' <= c <= 'F' then Some(c as int - 'A' as int + 10)
    else None
  }

  function Unescape(c: char): Option<char> {
    if c in "\"\\/" then Some(c)
    else if c == 'b' then Some(8 as char) else if c == 'f' then Some(12 as char)
    else if c == 'n' then Some('\n') else if c == 'r' then Some('\r') else if c == 't' then Some('\t')
    else None
  }

  /** The character of four hex digits; halves of surrogate pairs are not characters of the model. */
  function CodePoint(h: string): Option<char>
    requires |h| == 4
  {
    match (HexValue(h[0]), HexValue(h[1]), HexValue(h[2]), HexValue(h[3]))
    case (Some(a), Some(b), Some(c), Some(d)) =>
      if a < 16 && b < 16 && c < 16 && d < 16 && !(a == 13 && b >= 8)
      then Some((a * 4096 + b * 256 + c * 16 + d) as char) else None
    case _ => None
  }

  datatype Parsed<T> = Bad | Good(value: T, rest: string)

  function Prefix(c: char, p: Parsed<string>): Parsed<string> {
    if p.Bad? then Bad else Good([c] + p.value, p.rest)
  }

  /** The characters of a string up to its closing quote. */
  function ParseChars(s: string): (p: Parsed<string>)
    ensures p.Good? ==> |p.rest| < |s|
    decreases |s|
  {
    if s == "" || s[0] < ' ' then Bad
    else if s[0] == '"' then Good("", s[1..])
    else if s[0] != '\\' then Prefix(s[0], ParseChars(s[1..]))
    else if |s| >= 2 && Unescape(s[1]).Some? then Prefix(Unescape(s[1]).value, ParseChars(s[2..]))
    else if |s| >= 6 && s[1] == 'u' && CodePoint(s[2..6]).Some?
      then Prefix(CodePoint(s[2..6]).value, ParseChars(s[6..]))
    else Bad
  }

  predicate IsNumberChar(c: char) {
    Decimal.IsDigit(c) || c in "+-.eE"
  }

  /** How many leading characters can belong to a number. */
  function NumberRun(s: string): (n: nat)
    ensures n <= |s|
  {
    if s == "" || !IsNumberChar(s[0]) then 0 else 1 + NumberRun(s[1..])
  }

  function DigitRun(s: string): (n: nat)
    ensures n <= |s|
  {
    if s == "" || !Decimal.IsDigit(s[0]) then 0 else 1 + DigitRun(s[1..])
  }

  predicate IsExponent(s: string) {
    s == "" ||
    (s[0] in "eE" &&
     var t := (if |s| > 1 && s[1] in "+-" then s[2..] else s[1..]);
     t != "" && DigitRun(t) == |t|)
  }

  predicate IsFraction(s: string) {
    IsExponent(s) || (s != "" && s[0] == '.' && var n := DigitRun(s[1..]); n > 0 && IsExponent(s[1 + n..]))
  }

  /** The number grammar: no leading zeros, optional fraction and exponent. */
  predicate IsNumber(s: string) {
    var t := if s != "" && s[0] == '-' then s[1..] else s;
    var n := DigitRun(t);
    n > 0 && (n == 1 || t[0] != '0') && IsFraction(t[n..])
  }

  predicate StartsWith(s: string, c: char) {
    s != "" && s[0] == c
  }

  function ParseValue(s: string): (p: Parsed<Value>)
    ensures p.Good? ==> |p.rest| < |s|
    decreases |s|, 1
  {
    var t := SkipSpace(s);
    if t == "" then Bad
    else if t[0] == '"' then
      var p := ParseChars(t[1..]);
      if p.Bad? then Bad else Good(Str(p.value), p.rest)
    else if t[0] == '[' then
      var u := SkipSpace(t[1..]);
      if StartsWith(u, ']') then Good(Arr([]), u[1..])
      else
        var p := ParseItems(t[1..]);
        if p.Bad? then Bad else Good(Arr(p.value), p.rest)
    else if t[0] == '{' then
      var u := SkipSpace(t[1..]);
      if StartsWith(u, '}') then Good(Obj([]), u[1..])
      else
        var p := ParseFields(t[1..], []);
        if p.Bad? then Bad else Good(Obj(p.value), p.rest)
    else if "null" <= t then Good(Null, t[4..])
    else if "true" <= t then Good(Bool(true), t[4..])
    else if "false" <= t then Good(Bool(false), t[5..])
    else
      var n := NumberRun(t);
      if n > 0 && IsNumber(t[..n]) then Good(Num(t[..n]), t[n..]) else Bad
  }

  function ParseItems(s: string): (p: Parsed<seq<Value>>)
    ensures p.Good? ==> |p.rest| < |s|
    decreases |s|, 2
  {
    var p := ParseValue(s);
    if p.Bad? then Bad
    else
      var t := SkipSpace(p.rest);
      if StartsWith(t, ']') then Good([p.value], t[1..])
      else if StartsWith(t, ',') then
        var q := ParseItems(t[1..]);
        if q.Bad? then Bad else Good([p.value] + q.value, q.rest)
      else Bad
  }

  /** Members in order; a repeated key keeps its first place and takes its last value. */
  function ParseFields(s: string, done: OrderedMap<string, Value>): (p: Parsed<OrderedMap<string, Value>>)
    ensures p.Good? ==> |p.rest| < |s|
    decreases |s|, 2
  {
    var t := SkipSpace(s);
    if !StartsWith(t, '"') then Bad
    else
      var key := ParseChars(t[1..]);
      if key.Bad? || !StartsWith(SkipSpace(key.rest), ':') then Bad
      else
        var p := ParseValue(SkipSpace(key.rest)[1..]);
        if p.Bad? then Bad
        else
          var fields, u := Put(done, key.value, p.value), SkipSpace(p.rest);
          if StartsWith(u, '}') then Good(fields, u[1..])
          else if StartsWith(u, ',') then ParseFields(u[1..], fields)
          else Bad
  }

  function Parse(s: string): Option<Value> {
    var p := ParseValue(s);
    if p.Good? && SkipSpace(p.rest) == "" then Some(p.value) else None
  }

  // ---------- round trip ----------

  /** Number literals are numbers and objects have no repeated key. */
  ghost predicate WellFormed(v: Value)
    decreases v
  {
    match v
    case Num(literal) => IsNumber(literal) && NumberRun(literal) == |literal|
    case Arr(items) => forall i | 0 <= i < |items| :: WellFormed(items[i])
    case Obj(fields) => Unique(fields) && forall i | 0 <= i < |fields| :: WellFormed(fields[i].1)
    case _ => true
  }

  lemma {:induction false} HexRoundTrip(c: char)
    requires c < ' '
    ensures CodePoint(['0', '0', HexDigit(c as int / 16), HexDigit(c as int % 16)]) == Some(c)
  {
    var hi, lo := c as int / 16, c as int % 16;
    assert HexValue(HexDigit(hi)) == Some(hi) && HexValue(HexDigit(lo)) == Some(lo) && HexValue('0') == Some(0);
  }

  lemma {:induction false} HexParses(c: char, t: string)
    requires |EscapeChar(c)| == 6
    ensures ParseChars(EscapeChar(c) + t) == Prefix(c, ParseChars(t))
  {
    var s := EscapeChar(c) + t;
    HexRoundTrip(c);
    assert s[6..] == t && s[2..6] == ['0', '0', HexDigit(c as int / 16), HexDigit(c as int % 16)];
    assert s[0] == '\\' && s[1] == 'u' && Unescape('u').None?;
  }

  lemma {:induction false} EscapeCharParses(c: char, t: string)
    ensures ParseChars(EscapeChar(c) + t) == Prefix(c, ParseChars(t))
  {
    var s := EscapeChar(c) + t;
    if |EscapeChar(c)| == 1 {
      assert s[1..] == t;
    } else if |EscapeChar(c)| == 2 {
      assert s[2..] == t && s[0] == '\\' && Unescape(s[1]) == Some(c);
    } else {
      HexParses(c, t);
    }
  }

  lemma {:induction false} EscapeParses(s: string, rest: string)
    ensures ParseChars(Escape(s) + "\"" + rest) == Good(s, rest)
  {
    if s == "" {
      assert Escape(s) + "\"" + rest == "\"" + rest;
      assert ("\"" + rest)[1..] == rest;
    } else {
      EscapeParses(s[1..], rest);
      var t := Escape(s[1..]) + "\"" + rest;
      assert Escape(s) + "\"" + rest == EscapeChar(s[0]) + t;
      EscapeCharParses(s[0], t);
      assert [s[0]] + s[1..] == s;
    }
  }

  /** What may follow a value: nothing, a comma or a closing bracket. */
  ghost predicate Delimited(rest: string) {
    rest == "" || rest[0] in ",]}"
  }

  lemma {:induction false} NoSpace(s: string)
    requires s != "" && s[0] !in " \t\n\r"
    ensures SkipSpace(s) == s
  {
  }

  lemma {:induction false} NumberRunStops(s: string, rest: string)
    requires NumberRun(s) == |s| && Delimited(rest)
    ensures NumberRun(s + rest) == |s|
  {
    if s == "" {
      assert s + rest == rest;
    } else {
      assert (s + rest)[1..] == s[1..] + rest;
      NumberRunStops(s[1..], rest);
    }
  }

  lemma {:induction false} QuoteStarts(s: string, rest: string)
    ensures Quote(s) + rest == "\"" + (Escape(s) + "\"" + rest)
  {
  }

  lemma {:induction false} QuoteParses(s: string, rest: string)
    ensures StartsWith(Quote(s) + rest, '"') && ParseChars((Quote(s) + rest)[1..]) == Good(s, rest)
  {
    var t := Escape(s) + "\"" + rest;
    QuoteStarts(s, rest);
    EscapeParses(s, rest);
    assert (Quote(s) + rest)[1..] == t;
  }

  // ---------- the induction ----------

  /** A serialized value starts with a character that no separator or bracket shares. */
  lemma {:induction false} StringifyStarts(v: Value)
    requires WellFormed(v)
    ensures Stringify(v) != "" && Stringify(v)[0] !in " \t\n\r,:]}"
  {
    match v
    case Num(literal) => assert literal != "" && IsNumberChar(literal[0]);
    case _ =>
  }

  lemma {:induction false} LiteralParses(v: Value, rest: string)
    requires v.Null? || v.Bool?
    ensures ParseValue(Stringify(v) + rest) == Good(v, rest)
  {
    var s := Stringify(v) + rest;
    NoSpace(s);
    if v.Null? {
      assert "null" <= s && s[4..] == rest;
    } else if v.b {
      assert "true" <= s && s[4..] == rest;
    } else {
      assert "false" <= s && s[5..] == rest;
    }
  }

  lemma {:induction false} NumberParses(literal: string, rest: string)
    requires WellFormed(Num(literal)) && Delimited(rest)
    ensures ParseValue(literal + rest) == Good(Num(literal), rest)
  {
    var s := literal + rest;
    assert literal != "" && IsNumberChar(literal[0]) && s[0] == literal[0];
    NoSpace(s);
    NumberRunStops(literal, rest);
    assert s[..|literal|] == literal && s[|literal|..] == rest;
    assert s[0] !in "\"[{ntf";
    assert "null"[0] == 'n' && "true"[0] == 't' && "false"[0] == 'f';
  }

  lemma {:induction false} StringParses(s: string, rest: string)
    ensures ParseValue(Quote(s) + rest) == Good(Str(s), rest)
  {
    QuoteParses(s, rest);
    NoSpace(Quote(s) + rest);
  }

  // Each of the next lemmas unfolds the parser once.

  lemma {:induction false} ItemsEnd(s: string, v: Value, rest: string)
    requires ParseValue(s) == Good(v, "]" + rest)
    ensures ParseItems(s) == Good([v], rest)
  {
    NoSpace("]" + rest);
    assert ("]" + rest)[1..] == rest;
  }

  lemma {:induction false} ItemsGoOn(s: string, v: Value, t: string, vs: seq<Value>, rest: string)
    requires ParseValue(s) == Good(v, "," + t) && ParseItems(t) == Good(vs, rest)
    ensures ParseItems(s) == Good([v] + vs, rest)
  {
    NoSpace("," + t);
    assert ("," + t)[1..] == t;
  }

  lemma {:induction false} ArrayOpens(t: string, vs: seq<Value>, rest: string)
    requires t != "" && t[0] !in " \t\n\r]" && ParseItems(t) == Good(vs, rest)
    ensures ParseValue("[" + t) == Good(Arr(vs), rest)
  {
    NoSpace("[" + t);
    NoSpace(t);
    assert ("[" + t)[1..] == t;
  }

  lemma {:induction false} EmptyParses(rest: string)
    ensures ParseValue(Stringify(Arr([])) + rest) == Good(Arr([]), rest)
    ensures ParseValue(Stringify(Obj([])) + rest) == Good(Obj([]), rest)
  {
    assert Stringify(Arr([])) == "[]" && Stringify(Obj([])) == "{}";
    NoSpace("[]" + rest);
    NoSpace("{}" + rest);
    NoSpace("]" + rest);
    NoSpace("}" + rest);
    assert ("[]" + rest)[1..] == "]" + rest && ("]" + rest)[1..] == rest;
    assert ("{}" + rest)[1..] == "}" + rest && ("}" + rest)[1..] == rest;
  }

  lemma {:induction false} ObjectOpens(t: string, fields: OrderedMap<string, Value>, rest: string)
    requires t != "" && t[0] !in " \t\n\r}" && ParseFields(t, []) == Good(fields, rest)
    ensures ParseValue("{" + t) == Good(Obj(fields), rest)
  {
    NoSpace("{" + t);
    NoSpace(t);
    assert ("{" + t)[1..] == t;
  }

  /** The text starts with a key, then `tail`: a colon and a value, then `after`. */
  ghost predicate Member(s: string, key: string, tail: string, value: Value, after: string) {
    && SkipSpace(s) == s && StartsWith(s, '"') && ParseChars(s[1..]) == Good(key, tail)
    && SkipSpace(tail) == tail && StartsWith(tail, ':') && ParseValue(tail[1..]) == Good(value, after)
  }

  lemma {:induction false} FieldsEnd(
    s: string, done: OrderedMap<string, Value>, key: string, tail: string, value: Value, rest: string)
    requires Member(s, key, tail, value, "}" + rest)
    ensures ParseFields(s, done) == Good(Put(done, key, value), rest)
  {
    NoSpace("}" + rest);
    assert ("}" + rest)[1..] == rest;
  }

  lemma {:induction false} FieldsGoOn(
    s: string, done: OrderedMap<string, Value>, key: string, tail: string, value: Value, t: string)
    requires Member(s, key, tail, value, "," + t)
    ensures ParseFields(s, done) == ParseFields(t, Put(done, key, value))
  {
    NoSpace("," + t);
    assert ("," + t)[1..] == t;
  }

  lemma {:induction false} MemberText(key: string, value: Value, text: string, after: string)
    requires ParseValue(text + after) == Good(value, after)
    ensures Member(Quote(key) + ":" + text + after, key, ":" + text + after, value, after)
  {
    var tail := ":" + text + after;
    assert Quote(key) + ":" + text + after == Quote(key) + tail;
    assert tail[1..] == text + after;
    QuoteParses(key, tail);
    NoSpace(Quote(key) + tail);
    NoSpace(tail);
  }

  lemma {:induction false} PutNew(fields: OrderedMap<string, Value>, i: nat)
    requires Unique(fields) && i < |fields|
    ensures Put(fields[..i], fields[i].0, fields[i].1) == fields[..i + 1]
  {
    assert !Has(fields[..i], fields[i].0);
  }

  lemma {:induction false} ItemsText(items: seq<Value>, rest: string)
    requires items != []
    ensures StringifyItems(items) + "]" + rest
         == Stringify(items[0]) + if |items| == 1 then "]" + rest else "," + (StringifyItems(items[1..]) + "]" + rest)
  {
  }

  lemma {:induction false} FieldsText(v: Value, i: nat, rest: string)
    requires v.Obj? && i < |v.fields|
    ensures StringifyFields(v, i) + "}" + rest
         == StringifyField(v, i)
            + if i == |v.fields| - 1 then "}" + rest else "," + (StringifyFields(v, i + 1) + "}" + rest)
  {
  }

  lemma {:induction false} ArrayText(items: seq<Value>, rest: string)
    requires items != [] && WellFormed(items[0]) && ParseItems(StringifyItems(items) + "]" + rest) == Good(items, rest)
    ensures ParseValue(Stringify(Arr(items)) + rest) == Good(Arr(items), rest)
  {
    var t := StringifyItems(items) + "]" + rest;
    ItemsText(items, rest);
    StringifyStarts(items[0]);
    ArrayOpens(t, items, rest);
    assert Stringify(Arr(items)) + rest == "[" + t;
  }

  lemma {:induction false} FieldsStart(v: Value, rest: string)
    requires v.Obj? && v.fields != []
    ensures StartsWith(StringifyFields(v, 0) + "}" + rest, '"')
  {
    assert StartsWith(StringifyField(v, 0), '"');
    FieldsText(v, 0, rest);
  }

  lemma {:induction false} ObjectText(v: Value, rest: string)
    requires v.Obj? && v.fields != [] && ParseFields(StringifyFields(v, 0) + "}" + rest, []) == Good(v.fields, rest)
    ensures ParseValue(Stringify(v) + rest) == Good(v, rest)
  {
    ObjectStarts(v, rest);
    FieldsStart(v, rest);
    ObjectOpens(StringifyFields(v, 0) + "}" + rest, v.fields, rest);
  }

  lemma {:induction false} ObjectStarts(v: Value, rest: string)
    requires v.Obj?
    ensures Stringify(v) + rest == "{" + (StringifyFields(v, 0) + "}" + rest)
  {
    assert Stringify(v) == "{" + StringifyFields(v, 0) + "}";
  }

  /** Parsing undoes serialization, and stops where the value ends. */
  lemma {:induction false} ValueParses(v: Value, rest: string)
    requires WellFormed(v) && Delimited(rest)
    ensures ParseValue(Stringify(v) + rest) == Good(v, rest)
    decreases v, if v.Obj? then |v.fields| + 2 else 0
  {
    match v
    case Null => LiteralParses(v, rest);
    case Bool(_) => LiteralParses(v, rest);
    case Num(literal) => NumberParses(literal, rest);
    case Str(s) => StringParses(s, rest);
    case Arr(items) => ArrayParses(items, rest);
    case Obj(fields) => ObjectParses(v, rest);
  }

  lemma {:induction false} ArrayParses(items: seq<Value>, rest: string)
    requires (forall i | 0 <= i < |items| :: WellFormed(items[i])) && Delimited(rest)
    ensures ParseValue(Stringify(Arr(items)) + rest) == Good(Arr(items), rest)
    decreases items, 1
  {
    if items == [] {
      EmptyParses(rest);
    } else {
      ItemsParse(items, rest);
      ArrayText(items, rest);
    }
  }

  lemma {:induction false} ObjectParses(v: Value, rest: string)
    requires v.Obj? && WellFormed(v) && Delimited(rest)
    ensures ParseValue(Stringify(v) + rest) == Good(v, rest)
    decreases v, |v.fields| + 1
  {
    if v.fields == [] {
      EmptyParses(rest);
    } else {
      assert v.fields[..0] == [];
      FieldsParse(v, 0, rest);
      ObjectText(v, rest);
    }
  }

  lemma {:induction false} ItemsParse(items: seq<Value>, rest: string)
    requires items != [] && (forall i | 0 <= i < |items| :: WellFormed(items[i])) && Delimited(rest)
    ensures ParseItems(StringifyItems(items) + "]" + rest) == Good(items, rest)
    decreases items, 0
  {
    var s := StringifyItems(items) + "]" + rest;
    ItemsText(items, rest);
    if |items| == 1 {
      ValueParses(items[0], "]" + rest);
      ItemsEnd(s, items[0], rest);
      assert [items[0]] == items;
    } else {
      var t := StringifyItems(items[1..]) + "]" + rest;
      ItemsParse(items[1..], rest);
      ValueParses(items[0], "," + t);
      ItemsGoOn(s, items[0], t, items[1..], rest);
      assert [items[0]] + items[1..] == items;
    }
  }

  lemma {:induction false} FieldsParse(v: Value, i: nat, rest: string)
    requires v.Obj? && i < |v.fields| && WellFormed(v) && Delimited(rest)
    ensures ParseFields(StringifyFields(v, i) + "}" + rest, v.fields[..i]) == Good(v.fields, rest)
    decreases v, |v.fields| - i
  {
    var s, key, value := StringifyFields(v, i) + "}" + rest, v.fields[i].0, v.fields[i].1;
    PutNew(v.fields, i);
    FieldsText(v, i, rest);
    if i == |v.fields| - 1 {
      ValueParses(value, "}" + rest);
      MemberText(key, value, Stringify(value), "}" + rest);
      FieldsEnd(s, v.fields[..i], key, ":" + Stringify(value) + ("}" + rest), value, rest);
      assert v.fields[..i + 1] == v.fields;
    } else {
      var t := StringifyFields(v, i + 1) + "}" + rest;
      ValueParses(value, "," + t);
      MemberText(key, value, Stringify(value), "," + t);
      FieldsGoOn(s, v.fields[..i], key, ":" + Stringify(value) + ("," + t), value, t);
      FieldsParse(v, i + 1, rest);
    }
  }

  /** Parsing the text of a value gives the value back. */
  lemma {:induction false} ParseStringify(v: Value)
    requires WellFormed(v)
    ensures Parse(Stringify(v)) == Some(v)
  {
    ValueParses(v, "");
    assert Stringify(v) + "" == Stringify(v);
  }

  /** Different values have different texts. */
  lemma {:induction false} StringifyInjective(u: Value, v: Value)
    requires WellFormed(u) && WellFormed(v) && Stringify(u) == Stringify(v)
    ensures u == v
  {
    ParseStringify(u);
    ParseStringify(v);
  }

  // ---------- integers as numbers ----------

  lemma {:induction false} DigitRunAll(s: string)
    requires Decimal.AllDigits(s)
    ensures DigitRun(s) == |s| && NumberRun(s) == |s|
  {
    if s != "" {
      DigitRunAll(s[1..]);
    }
  }

  /** The decimal string of an integer is a number literal. */
  lemma {:induction false} IntegerIsNumber(n: int)
    ensures WellFormed(Num(Decimal.ToString(n)))
  {
    var s := Decimal.ToString(n);
    if n < 0 {
      Decimal.DigitsValue(-n);
      DigitRunAll(Decimal.Digits(-n));
      assert s[1..] == Decimal.Digits(-n);
    } else {
      Decimal.DigitsValue(n);
      DigitRunAll(s);
      assert s[0] != '-';
    }
  }

  // ---------- the text ----------

  /** A character that stands for itself in a string. */
  predicate IsPlain(c: char) {
    c >= ' ' && c != '"' && c != '\\'
  }

  lemma {:induction false} PlainStays(s: string)
    requires forall i | 0 <= i < |s| :: IsPlain(s[i])
    ensures Escape(s) == s
  {
    if s != "" { PlainStays(s[1..]); }
  }

  /** How the other characters are written (section 7 of RFC 8259). */
  lemma {:induction false} Escapes(c: char)
    requires !IsPlain(c)
    ensures EscapeChar('"') == ['\\', '"'] && EscapeChar('\\') == ['\\', '\\'] && EscapeChar('\n') == ['\\', 'n']
    ensures EscapeChar('\r') == ['\\', 'r'] && EscapeChar('\t') == ['\\', 't'] && EscapeChar(8 as char) == ['\\', 'b']
    ensures EscapeChar(12 as char) == ['\\', 'f']
    ensures |EscapeChar(c)| in {2, 6} && EscapeChar(c)[0] == '\\'
    ensures |EscapeChar(c)| == 6 ==>
              EscapeChar(c)[1..4] == "u00" && HexValue(EscapeChar(c)[4]) == Some(c as int / 16)
              && HexValue(EscapeChar(c)[5]) == Some(c as int % 16)
  {
  }

  /** One member of an object, its name in quotes. */
  function Entry(name: string, text: string): string {
    "\"" + name + "\":" + text
  }

  lemma {:induction false} EntryText(v: Value, i: nat)
    requires v.Obj? && i < |v.fields| && forall j | 0 <= j < |v.fields[i].0| :: IsPlain(v.fields[i].0[j])
    ensures StringifyField(v, i) == Entry(v.fields[i].0, Stringify(v.fields[i].1))
  {
    PlainStays(v.fields[i].0);
  }

  /** A value with another comma or bracket behind it is refused. */
  lemma {:induction false} WholeText(v: Value, rest: string)
    requires WellFormed(v) && Delimited(rest)
    ensures Parse(Stringify(v) + rest) == if rest == "" then Some(v) else None
  {
    ValueParses(v, rest);
  }
}
