/**
 The canonical JSON text that decision records are hashed over: keys sorted by code point,
 configurable separators, every character outside printable ASCII escaped as section 7 of
 RFC 8259 allows. `Print` is undone by `ParseValue`, and two values have the same
 canonical text exactly when they are the same JSON value but for the order of members.
 */
module CanonicalJson {
  import opened Wrappers
  import opened Sorting

  /** An object keeps its members in insertion order, as a Python dictionary does. */
  datatype Json =
    | Null
    | Bool(flag: bool)
    | Int(number: int)
    | Str(text: string)
    | Arr(items: seq<Json>)
    | Obj(members: seq<(string, Json)>)

  /** The two strings put between members and between a key and its value. */
  datatype Separators = Separators(item: string, key: string)

  const COMPACT := Separators(",", ":")
  const SPACED := Separators(", ", ": ")

  /** Separators the printer's output can be read back with. */
  predicate Usable(sep: Separators) {
    && sep.item != "" && sep.item[0] == ','
    && sep.key != "" && sep.key[0] == ':'
  }

  // ---------------------------------------------------------------------------
  // Characters
  // ---------------------------------------------------------------------------

  function HexDigit(d: nat): (c: char)
    requires d < 16
  {
    "0123456789abcdef"[d]
  }

  function HexValue(c: char): (d: Option<nat>)
    ensures d.Some? ==> d.value < 16
  {
    if '0' <= c <= '9' then Some(c as int - '0' as int)
    else if 'a' <= c <= 'f' then Some(c as int - 'a' as int + 10)
    else None
  }

  function HexText(a: nat, b: nat, c: nat, d: nat): (h: string)
    requires a < 16 && b < 16 && c < 16 && d < 16
  {
    [HexDigit(a), HexDigit(b), HexDigit(c), HexDigit(d)]
  }

  function HexNumber(a: nat, b: nat, c: nat, d: nat): nat {
    a * 0x1000 + b * 0x100 + c * 0x10 + d
  }

  function Hex4(n: nat): (h: string)
    requires n < 0x10000
    ensures |h| == 4
  {
    HexText(n / 0x1000, n / 0x100 % 16, n / 0x10 % 16, n % 16)
  }

  /** Reads four hexadecimal digits. */
  function ReadHex4(t: string): (n: Option<nat>)
    requires |t| >= 4
    ensures n.Some? ==> n.value < 0x10000
  {
    match (HexValue(t[0]), HexValue(t[1]), HexValue(t[2]), HexValue(t[3]))
    case (Some(a), Some(b), Some(c), Some(d)) => Some(HexNumber(a, b, c, d))
    case _ => None
  }

  function UnicodeEscape(n: nat): (h: string)
    requires n < 0x10000
  {
    "\\u" + Hex4(n)
  }

  /** One character as it stands in a JSON string that must be pure ASCII. */
  function EscapeChar(c: char): (e: string)
    ensures e != ""
  {
    if c == '\"' then "\\\""
    else if c == '\\' then "\\\\"
    else if c == '\n' then "\\n"
    else if c == '\r' then "\\r"
    else if c == '\t' then "\\t"
    else if c == '\U{c}' then "\\f"
    else if c == '\U{8}' then "\\b"
    else if ' ' <= c <= '~' then [c]
    else if c as int < 0x10000 then UnicodeEscape(c as int)
    else
      var n := c as int - 0x10000;
      UnicodeEscape(0xD800 + n / 0x400) + UnicodeEscape(0xDC00 + n % 0x400)
  }

  function Escape(s: string): string {
    if s == "" then "" else EscapeChar(s[0]) + Escape(s[1..])
  }

  function Quote(s: string): string {
    "\"" + Escape(s) + "\""
  }

  /** Reads `\uXXXX`, joining a high surrogate with the low one that must follow it. */
  function ReadUnicode(t: string): (r: Option<(char, string)>)
    ensures r.Some? ==> |r.value.1| < |t|
  {
    if |t| < 6 then None else
    match ReadHex4(t[2..6])
    case None => None
    case Some(n) =>
      if 0xD800 <= n < 0xDC00 then
        if |t| < 12 || t[6] != '\\' || t[7] != 'u' then None else
        match ReadHex4(t[8..12])
        case Some(low) =>
          if 0xDC00 <= low < 0xE000
          then Some(((0x10000 + (n - 0xD800) * 0x400 + (low - 0xDC00)) as char, t[12..]))
          else None
        case None => None
      else if 0xDC00 <= n < 0xE000 then None
      else Some((n as char, t[6..]))
  }

  /** Reads one character of a string body. */
  function ReadChar(t: string): (r: Option<(char, string)>)
    requires t != ""
    ensures r.Some? ==> |r.value.1| < |t|
  {
    if t[0] != '\\' then Some((t[0], t[1..]))
    else if |t| < 2 then None
    else match t[1]
      case '\"' => Some(('\"', t[2..]))
      case '\\' => Some(('\\', t[2..]))
      case 'n' => Some(('\n', t[2..]))
      case 'r' => Some(('\r', t[2..]))
      case 't' => Some(('\t', t[2..]))
      case 'f' => Some(('\U{c}', t[2..]))
      case 'b' => Some(('\U{8}', t[2..]))
      case 'u' => ReadUnicode(t)
      case _ => None
  }

  lemma HexRoundTrip(d: nat)
    requires d < 16
    ensures HexValue(HexDigit(d)) == Some(d)
    ensures ' ' <= HexDigit(d) <= '~'
  {
  }

  lemma HexParts(n: nat)
    requires n < 0x10000
    ensures HexNumber(n / 0x1000, n / 0x100 % 16, n / 0x10 % 16, n % 16) == n
    ensures n / 0x1000 < 16
  {
    assert n == n / 0x10 * 0x10 + n % 16;
    assert n / 0x10 == n / 0x100 * 0x10 + n / 0x10 % 16;
    assert n / 0x100 == n / 0x1000 * 0x10 + n / 0x100 % 16;
  }

  lemma ReadHexText(a: nat, b: nat, c: nat, d: nat)
    requires a < 16 && b < 16 && c < 16 && d < 16
    ensures ReadHex4(HexText(a, b, c, d)) == Some(HexNumber(a, b, c, d))
    ensures forall i :: 0 <= i < 4 ==> ' ' <= HexText(a, b, c, d)[i] <= '~'
  {
    HexRoundTrip(a);
    HexRoundTrip(b);
    HexRoundTrip(c);
    HexRoundTrip(d);
  }

  lemma Hex4RoundTrip(n: nat)
    requires n < 0x10000
    ensures ReadHex4(Hex4(n)) == Some(n)
    ensures forall i :: 0 <= i < 4 ==> ' ' <= Hex4(n)[i] <= '~'
  {
    HexParts(n);
    ReadHexText(n / 0x1000, n / 0x100 % 16, n / 0x10 % 16, n % 16);
  }

  lemma ReadBmp(n: nat, rest: string)
    requires n < 0x10000 && !(0xD800 <= n < 0xE000)
    ensures ReadUnicode(UnicodeEscape(n) + rest) == Some((n as char, rest))
  {
    var t := UnicodeEscape(n) + rest;
    assert t[2..6] == Hex4(n) && t[6..] == rest;
    Hex4RoundTrip(n);
  }

  lemma ReadAstral(n: nat, rest: string)
    requires n < 0x100000
    ensures ReadUnicode(UnicodeEscape(0xD800 + n / 0x400) + UnicodeEscape(0xDC00 + n % 0x400) + rest)
         == Some(((0x10000 + n) as char, rest))
  {
    var high, low := 0xD800 + n / 0x400, 0xDC00 + n % 0x400;
    var t := UnicodeEscape(high) + UnicodeEscape(low) + rest;
    assert t[2..6] == Hex4(high) && t[6] == '\\' && t[7] == 'u' && t[8..12] == Hex4(low) && t[12..] == rest;
    Hex4RoundTrip(high);
    Hex4RoundTrip(low);
  }

  predicate ShortEscape(c: char) {
    c in {'\"', '\\', '\n', '\r', '\t', '\U{c}', '\U{8}'}
  }

  lemma ReadShortEscape(c: char, rest: string)
    requires ShortEscape(c)
    ensures ReadChar(EscapeChar(c) + rest) == Some((c, rest))
  {
    var e := EscapeChar(c);
    var t := e + rest;
    assert |e| == 2 && t[0] == e[0] && t[1] == e[1] && t[2..] == rest;
  }

  lemma ReadBackslashU(t: string)
    requires |t| >= 2 && t[0] == '\\' && t[1] == 'u'
    ensures ReadChar(t) == ReadUnicode(t)
  {
  }

  lemma ReadUnicodeEscape(c: char, rest: string)
    requires !ShortEscape(c) && !(' ' <= c <= '~')
    ensures ReadChar(EscapeChar(c) + rest) == Some((c, rest))
  {
    var n := c as int;
    if n < 0x10000 {
      var e := UnicodeEscape(n);
      assert EscapeChar(c) == e && (e + rest)[0] == e[0] && (e + rest)[1] == e[1];
      ReadBackslashU(e + rest);
      ReadBmp(n, rest);
    } else {
      var m := n - 0x10000;
      var e := UnicodeEscape(0xD800 + m / 0x400) + UnicodeEscape(0xDC00 + m % 0x400);
      assert EscapeChar(c) == e && (e + rest)[0] == e[0] && (e + rest)[1] == e[1];
      ReadBackslashU(e + rest);
      ReadAstral(m, rest);
    }
  }

  /** Escaping one character loses nothing. */
  lemma EscapeCharRoundTrip(c: char, rest: string)
    ensures ReadChar(EscapeChar(c) + rest) == Some((c, rest))
  {
    if ShortEscape(c) {
      ReadShortEscape(c, rest);
    } else if ' ' <= c <= '~' {
      assert ([c] + rest)[1..] == rest;
    } else {
      ReadUnicodeEscape(c, rest);
    }
  }

  // ---------------------------------------------------------------------------
  // Strings and integers
  // ---------------------------------------------------------------------------

  /** Reads a string body up to and including the closing quote. */
  function ReadBody(t: string): (r: Option<(string, string)>)
    ensures r.Some? ==> |r.value.1| < |t|
    decreases |t|
  {
    if t == "" then None
    else if t[0] == '\"' then Some(("", t[1..]))
    else match ReadChar(t)
      case None => None
      case Some((c, rest)) =>
        match ReadBody(rest)
        case None => None
        case Some((body, after)) => Some(([c] + body, after))
  }

  lemma ReadBodyStep(t: string, c: char, rest: string, body: string, after: string)
    requires t != "" && t[0] != '\"'
    requires ReadChar(t) == Some((c, rest))
    requires ReadBody(rest) == Some((body, after))
    ensures ReadBody(t) == Some(([c] + body, after))
  {
  }

  /** Escaping and quoting a string loses nothing, whatever follows the closing quote. */
  lemma {:induction false} BodyRoundTrip(s: string, rest: string)
    ensures ReadBody(Escape(s) + "\"" + rest) == Some((s, rest))
  {
    var t := Escape(s) + "\"" + rest;
    if s == "" {
      assert t[0] == '\"' && t[1..] == rest;
    } else {
      var tail := Escape(s[1..]) + "\"" + rest;
      BodyRoundTrip(s[1..], rest);
      assert t == EscapeChar(s[0]) + tail;
      EscapeStart(s[0], tail);
      EscapeCharRoundTrip(s[0], tail);
      ReadBodyStep(t, s[0], tail, s[1..], rest);
      assert s == [s[0]] + s[1..];
    }
  }

  lemma EscapeStart(c: char, rest: string)
    ensures (EscapeChar(c) + rest)[0] != '\"'
  {
    assert (EscapeChar(c) + rest)[0] == EscapeChar(c)[0];
  }

  predicate IsDigit(c: char) {
    '0' <= c <= '9'
  }

  function Digit(d: nat): (c: char)
    requires d < 10
    ensures IsDigit(c) && c as int - '0' as int == d
  {
    ('0' as int + d) as char
  }

  function PrintNat(n: nat): (s: string)
    ensures s != "" && IsDigit(s[0])
  {
    if n < 10 then [Digit(n)] else PrintNat(n / 10) + [Digit(n % 10)]
  }

  function PrintInt(n: int): string {
    if n < 0 then "-" + PrintNat(-n) else PrintNat(n)
  }

  /** Reads digits as long as there are any, continuing the number `acc`. */
  function ReadDigits(acc: nat, t: string): (r: (nat, string))
    ensures |r.1| <= |t|
    ensures t != "" && IsDigit(t[0]) ==> |r.1| < |t|
    decreases |t|
  {
    if t != "" && IsDigit(t[0])
    then ReadDigits(acc * 10 + (t[0] as int - '0' as int), t[1..])
    else (acc, t)
  }

  predicate NoDigitFirst(t: string) {
    t != "" ==> !IsDigit(t[0])
  }

  lemma {:induction false} ReadPrintedNat(n: nat, rest: string)
    ensures ReadDigits(0, PrintNat(n) + rest) == ReadDigits(n, rest)
  {
    if n < 10 {
      assert (PrintNat(n) + rest)[1..] == rest;
    } else {
      var last := [Digit(n % 10)] + rest;
      assert PrintNat(n) + rest == PrintNat(n / 10) + last;
      ReadPrintedNat(n / 10, last);
      assert last[1..] == rest;
    }
  }

  // ---------------------------------------------------------------------------
  // Values
  // ---------------------------------------------------------------------------

  /** The text of a value, members in the order they stand in. */
  function Print(sep: Separators, v: Json): string
    decreases v, 1
  {
    match v
    case Null => "null"
    case Bool(b) => if b then "true" else "false"
    case Int(n) => PrintInt(n)
    case Str(s) => Quote(s)
    case Arr(items) => if items == [] then "[]" else "[" + PrintItems(sep, items) + "]"
    case Obj(members) => if members == [] then "{}" else "{" + PrintMembers(sep, members) + "}"
  }

  function PrintItems(sep: Separators, items: seq<Json>): string
    requires items != []
    decreases items, 0
  {
    if |items| == 1 then Print(sep, items[0])
    else Print(sep, items[0]) + sep.item + PrintItems(sep, items[1..])
  }

  function PrintMember(sep: Separators, m: (string, Json)): string
    decreases m, 2
  {
    Quote(m.0) + sep.key + Print(sep, m.1)
  }

  function PrintMembers(sep: Separators, members: seq<(string, Json)>): string
    requires members != []
    decreases members, 0
  {
    if |members| == 1 then PrintMember(sep, members[0])
    else PrintMember(sep, members[0]) + sep.item + PrintMembers(sep, members[1..])
  }

  predicate StartsWith(t: string, prefix: string) {
    |prefix| <= |t| && t[..|prefix|] == prefix
  }

  function ReadLiteral(t: string, word: string, v: Json): (r: Option<(Json, string)>)
    requires word != ""
    ensures r.Some? ==> |r.value.1| < |t|
  {
    if StartsWith(t, word) then Some((v, t[|word|..])) else None
  }

  function ReadInt(t: string): (r: Option<(Json, string)>)
    ensures r.Some? ==> |r.value.1| < |t|
  {
    if t != "" && IsDigit(t[0]) then
      var r := ReadDigits(0, t);
      Some((Int(r.0), r.1))
    else if |t| > 1 && t[0] == '-' && IsDigit(t[1]) then
      var r := ReadDigits(0, t[1..]);
      Some((Int(-(r.0 as int)), r.1))
    else None
  }

  /** Reads one value and returns what follows it. */
  function ParseValue(sep: Separators, t: string): (r: Option<(Json, string)>)
    requires Usable(sep)
    ensures r.Some? ==> |r.value.1| < |t|
    decreases |t|, 1
  {
    if t == "" then None
    else match t[0]
      case 'n' => ReadLiteral(t, "null", Null)
      case 't' => ReadLiteral(t, "true", Bool(true))
      case 'f' => ReadLiteral(t, "false", Bool(false))
      case '\"' =>
        (match ReadBody(t[1..])
         case None => None
         case Some((s, rest)) => Some((Str(s), rest)))
      case '[' =>
        if StartsWith(t, "[]") then Some((Arr([]), t[2..])) else
        (match ParseItems(sep, t[1..])
         case None => None
         case Some((items, rest)) => Some((Arr(items), rest)))
      case '{' =>
        if StartsWith(t, "{}") then Some((Obj([]), t[2..])) else
        (match ParseMembers(sep, t[1..])
         case None => None
         case Some((members, rest)) => Some((Obj(members), rest)))
      case _ => ReadInt(t)
  }

  /** Reads items up to and including the closing bracket. */
  function ParseItems(sep: Separators, t: string): (r: Option<(seq<Json>, string)>)
    requires Usable(sep)
    ensures r.Some? ==> |r.value.1| < |t|
    decreases |t|, 2
  {
    match ParseValue(sep, t)
    case None => None
    case Some((v, rest)) =>
      if StartsWith(rest, sep.item) then
        match ParseItems(sep, rest[|sep.item|..])
        case None => None
        case Some((items, after)) => Some(([v] + items, after))
      else if StartsWith(rest, "]") then Some(([v], rest[1..]))
      else None
  }

  /** Reads a quoted key, the key separator and a value. */
  function ParseMember(sep: Separators, t: string): (r: Option<((string, Json), string)>)
    requires Usable(sep)
    ensures r.Some? ==> |r.value.1| < |t|
    decreases |t|, 2
  {
    if !StartsWith(t, "\"") then None else
    match ReadBody(t[1..])
    case None => None
    case Some((key, rest)) =>
      if !StartsWith(rest, sep.key) then None else
      match ParseValue(sep, rest[|sep.key|..])
      case None => None
      case Some((v, after)) => Some(((key, v), after))
  }

  /** Reads members up to and including the closing brace. */
  function ParseMembers(sep: Separators, t: string): (r: Option<(seq<(string, Json)>, string)>)
    requires Usable(sep)
    ensures r.Some? ==> |r.value.1| < |t|
    decreases |t|, 3
  {
    match ParseMember(sep, t)
    case None => None
    case Some((m, rest)) =>
      if StartsWith(rest, sep.item) then
        match ParseMembers(sep, rest[|sep.item|..])
        case None => None
        case Some((members, after)) => Some(([m] + members, after))
      else if StartsWith(rest, "}") then Some(([m], rest[1..]))
      else None
  }

  lemma ReadWhole(n: nat, rest: string)
    requires NoDigitFirst(rest)
    ensures ReadDigits(0, PrintNat(n) + rest) == (n, rest)
  {
    ReadPrintedNat(n, rest);
  }

  lemma IntRoundTrip(n: int, rest: string)
    requires NoDigitFirst(rest)
    ensures ReadInt(PrintInt(n) + rest) == Some((Int(n), rest))
  {
    if n < 0 {
      var digits := PrintNat(-n);
      ReadWhole(-n, rest);
      var t := "-" + digits + rest;
      assert t[0] == '-' && t[1] == digits[0] && t[1..] == digits + rest;
    } else {
      ReadWhole(n, rest);
    }
  }

  lemma Prefixed(prefix: string, rest: string)
    ensures StartsWith(prefix + rest, prefix)
    ensures (prefix + rest)[|prefix|..] == rest
  {
  }

  /** The first character of a printed value tells its kind. */
  lemma PrintStart(sep: Separators, v: Json)
    ensures var p := Print(sep, v);
            && p != "" && p[0] != ']'
            && (v.Int? ==> p[0] == '-' || IsDigit(p[0]))
  {
  }

  lemma StringRoundTrip(sep: Separators, s: string, rest: string)
    requires Usable(sep)
    ensures ParseValue(sep, Quote(s) + rest) == Some((Str(s), rest))
  {
    var t := Quote(s) + rest;
    assert t[0] == '\"' && t[1..] == Escape(s) + "\"" + rest;
    BodyRoundTrip(s, rest);
  }

  lemma ParseArray(sep: Separators, t: string, items: seq<Json>, rest: string)
    requires Usable(sep)
    requires |t| > 1 && t[0] == '[' && t[1] != ']'
    requires ParseItems(sep, t[1..]) == Some((items, rest))
    ensures ParseValue(sep, t) == Some((Arr(items), rest))
  {
  }

  lemma ParseObject(sep: Separators, t: string, members: seq<(string, Json)>, rest: string)
    requires Usable(sep)
    requires |t| > 1 && t[0] == '{' && t[1] != '}'
    requires ParseMembers(sep, t[1..]) == Some((members, rest))
    ensures ParseValue(sep, t) == Some((Obj(members), rest))
  {
  }

  lemma AtomRoundTrip(sep: Separators, v: Json, rest: string)
    requires Usable(sep) && NoDigitFirst(rest)
    requires v.Null? || v.Bool? || v == Arr([]) || v == Obj([])
    ensures ParseValue(sep, Print(sep, v) + rest) == Some((v, rest))
  {
    Prefixed(Print(sep, v), rest);
  }

  lemma NumberRoundTrip(sep: Separators, n: int, rest: string)
    requires Usable(sep) && NoDigitFirst(rest)
    ensures ParseValue(sep, Print(sep, Int(n)) + rest) == Some((Int(n), rest))
  {
    var t := Print(sep, Int(n)) + rest;
    PrintStart(sep, Int(n));
    assert t[0] == Print(sep, Int(n))[0];
    IntRoundTrip(n, rest);
  }

  /** The parser undoes the printer, whatever text follows the value. */
  lemma {:induction false} ValueRoundTrip(sep: Separators, v: Json, rest: string)
    requires Usable(sep) && NoDigitFirst(rest)
    ensures ParseValue(sep, Print(sep, v) + rest) == Some((v, rest))
    decreases v, 1
  {
    if v.Int? {
      NumberRoundTrip(sep, v.number, rest);
    } else if v.Str? {
      StringRoundTrip(sep, v.text, rest);
    } else if v.Arr? && v.items != [] {
      ItemsRoundTrip(sep, v.items, rest);
      ArrayRoundTrip(sep, v.items, rest);
    } else if v.Obj? && v.members != [] {
      MembersRoundTrip(sep, v.members, rest);
      ObjectRoundTrip(sep, v.members, rest);
    } else {
      AtomRoundTrip(sep, v, rest);
    }
  }

  lemma ArrayRoundTrip(sep: Separators, items: seq<Json>, rest: string)
    requires Usable(sep) && items != []
    requires ParseItems(sep, PrintItems(sep, items) + "]" + rest) == Some((items, rest))
    ensures ParseValue(sep, Print(sep, Arr(items)) + rest) == Some((Arr(items), rest))
  {
    ItemsStart(sep, items);
    var inner := PrintItems(sep, items);
    var t := "[" + (inner + "]" + rest);
    assert t[0] == '[' && t[1] == inner[0];
    assert "[" + inner + "]" + rest == t;
    ParseArray(sep, t, items, rest);
  }

  lemma ObjectRoundTrip(sep: Separators, members: seq<(string, Json)>, rest: string)
    requires Usable(sep) && members != []
    requires ParseMembers(sep, PrintMembers(sep, members) + "}" + rest) == Some((members, rest))
    ensures ParseValue(sep, Print(sep, Obj(members)) + rest) == Some((Obj(members), rest))
  {
    MembersStart(sep, members);
    var inner := PrintMembers(sep, members);
    var t := "{" + (inner + "}" + rest);
    assert t[0] == '{' && t[1] == inner[0];
    assert "{" + inner + "}" + rest == t;
    ParseObject(sep, t, members, rest);
  }

  lemma MembersStart(sep: Separators, members: seq<(string, Json)>)
    requires members != []
    ensures PrintMembers(sep, members) != "" && PrintMembers(sep, members)[0] == '\"'
  {
  }

  lemma ItemsStart(sep: Separators, items: seq<Json>)
    requires items != []
    ensures PrintItems(sep, items) != "" && PrintItems(sep, items)[0] != ']'
  {
    PrintStart(sep, items[0]);
  }

  lemma {:induction false} ItemsRoundTrip(sep: Separators, items: seq<Json>, rest: string)
    requires Usable(sep) && items != []
    ensures ParseItems(sep, PrintItems(sep, items) + "]" + rest) == Some((items, rest))
    decreases items, 0
  {
    var first, others := items[0], items[1..];
    ItemsText(sep, items, rest);
    if |items| == 1 {
      assert items == [first];
      ValueRoundTrip(sep, first, "]" + rest);
      ParseLastItem(sep, Print(sep, first) + ("]" + rest), first, rest);
    } else {
      assert items == [first] + others;
      var tail := PrintItems(sep, others) + "]" + rest;
      ValueRoundTrip(sep, first, sep.item + tail);
      ItemsRoundTrip(sep, others, rest);
      ParseOneMoreItem(sep, Print(sep, first) + (sep.item + tail), first, tail, others, rest);
    }
  }

  lemma ItemsText(sep: Separators, items: seq<Json>, rest: string)
    requires items != []
    ensures var text := PrintItems(sep, items) + "]" + rest;
            var head := Print(sep, items[0]);
            if |items| == 1
            then text == head + ("]" + rest)
            else text == head + (sep.item + (PrintItems(sep, items[1..]) + "]" + rest))
  {
    var head := Print(sep, items[0]);
    if |items| == 1 {
      Regroup(head, "", "", "]", rest);
    } else {
      Regroup(head, sep.item, PrintItems(sep, items[1..]), "]", rest);
    }
  }

  lemma Regroup(a: string, b: string, c: string, d: string, e: string)
    ensures a + b + c + d + e == a + (b + (c + d + e))
    ensures a + d + e == a + (d + e)
  {
  }

  lemma ParseLastItem(sep: Separators, t: string, v: Json, rest: string)
    requires Usable(sep) && ParseValue(sep, t) == Some((v, "]" + rest))
    ensures ParseItems(sep, t) == Some(([v], rest))
  {
    assert ("]" + rest)[1..] == rest;
    assert !StartsWith("]" + rest, sep.item);
  }

  lemma ParseOneMoreItem(sep: Separators, t: string, v: Json, tail: string, items: seq<Json>, rest: string)
    requires Usable(sep) && ParseValue(sep, t) == Some((v, sep.item + tail))
    requires ParseItems(sep, tail) == Some((items, rest))
    ensures ParseItems(sep, t) == Some(([v] + items, rest))
  {
    Prefixed(sep.item, tail);
  }

  lemma {:induction false} MemberRoundTrip(sep: Separators, m: (string, Json), rest: string)
    requires Usable(sep) && NoDigitFirst(rest)
    ensures ParseMember(sep, PrintMember(sep, m) + rest) == Some((m, rest))
    decreases m, 2
  {
    var value := Print(sep, m.1) + rest;
    var afterKey := sep.key + value;
    var t := PrintMember(sep, m) + rest;
    MemberText(sep, m, rest);
    BodyRoundTrip(m.0, afterKey);
    Prefixed(sep.key, value);
    ValueRoundTrip(sep, m.1, rest);
    ParseOneMember(sep, t, m, afterKey, rest);
  }

  lemma MemberText(sep: Separators, m: (string, Json), rest: string)
    ensures var t := PrintMember(sep, m) + rest;
            StartsWith(t, "\"") && t[1..] == Escape(m.0) + "\"" + (sep.key + (Print(sep, m.1) + rest))
  {
    var value := Print(sep, m.1);
    var body := Escape(m.0);
    var tail := sep.key + (value + rest);
    assert Quote(m.0) == "\"" + body + "\"";
    assert PrintMember(sep, m) + rest == Quote(m.0) + tail;
    assert Quote(m.0) + tail == "\"" + (body + "\"" + tail);
  }

  lemma ParseOneMember(sep: Separators, t: string, m: (string, Json), afterKey: string, rest: string)
    requires Usable(sep) && StartsWith(t, "\"")
    requires ReadBody(t[1..]) == Some((m.0, afterKey)) && StartsWith(afterKey, sep.key)
    requires ParseValue(sep, afterKey[|sep.key|..]) == Some((m.1, rest))
    ensures ParseMember(sep, t) == Some((m, rest))
  {
  }

  lemma {:induction false} MembersRoundTrip(sep: Separators, members: seq<(string, Json)>, rest: string)
    requires Usable(sep) && members != []
    ensures ParseMembers(sep, PrintMembers(sep, members) + "}" + rest) == Some((members, rest))
    decreases members, 0
  {
    var first, others := members[0], members[1..];
    MembersText(sep, members, rest);
    if |members| == 1 {
      assert members == [first];
      MemberRoundTrip(sep, first, "}" + rest);
      ParseLastMember(sep, PrintMember(sep, first) + ("}" + rest), first, rest);
    } else {
      assert members == [first] + others;
      var tail := PrintMembers(sep, others) + "}" + rest;
      MemberRoundTrip(sep, first, sep.item + tail);
      MembersRoundTrip(sep, others, rest);
      ParseOneMoreMember(sep, PrintMember(sep, first) + (sep.item + tail), first, tail, others, rest);
    }
  }

  lemma MembersText(sep: Separators, members: seq<(string, Json)>, rest: string)
    requires members != []
    ensures var text := PrintMembers(sep, members) + "}" + rest;
            var head := PrintMember(sep, members[0]);
            if |members| == 1
            then text == head + ("}" + rest)
            else text == head + (sep.item + (PrintMembers(sep, members[1..]) + "}" + rest))
  {
    var head := PrintMember(sep, members[0]);
    if |members| == 1 {
      Regroup(head, "", "", "}", rest);
    } else {
      Regroup(head, sep.item, PrintMembers(sep, members[1..]), "}", rest);
    }
  }

  lemma ParseLastMember(sep: Separators, t: string, m: (string, Json), rest: string)
    requires Usable(sep) && ParseMember(sep, t) == Some((m, "}" + rest))
    ensures ParseMembers(sep, t) == Some(([m], rest))
  {
    assert ("}" + rest)[1..] == rest;
    assert !StartsWith("}" + rest, sep.item);
  }

  lemma ParseOneMoreMember(
    sep: Separators, t: string, m: (string, Json), tail: string, members: seq<(string, Json)>, rest: string)
    requires Usable(sep) && ParseMember(sep, t) == Some((m, sep.item + tail))
    requires ParseMembers(sep, tail) == Some((members, rest))
    ensures ParseMembers(sep, t) == Some(([m] + members, rest))
  {
    Prefixed(sep.item, tail);
  }

  /** Reads a whole text as one value. */
  function Parse(sep: Separators, t: string): (r: Option<Json>)
    requires Usable(sep)
  {
    match ParseValue(sep, t)
    case Some((v, rest)) => if rest == "" then Some(v) else None
    case None => None
  }

  lemma ParsePrint(sep: Separators, v: Json)
    requires Usable(sep)
    ensures Parse(sep, Print(sep, v)) == Some(v)
  {
    ValueRoundTrip(sep, v, "");
    assert Print(sep, v) + "" == Print(sep, v);
  }

  // ---------------------------------------------------------------------------
  // Key order
  // ---------------------------------------------------------------------------

  /** Code point order on strings, which is how Python compares keys. */
  predicate StringLe(a: string, b: string) {
    a == "" || (b != "" && (a[0] < b[0] || (a[0] == b[0] && StringLe(a[1..], b[1..]))))
  }

  lemma {:induction false} StringLeTotal(a: string, b: string)
    ensures StringLe(a, b) || StringLe(b, a)
  {
    if a != "" && b != "" && a[0] == b[0] {
      StringLeTotal(a[1..], b[1..]);
    }
  }

  lemma {:induction false} StringLeTransitive(a: string, b: string, c: string)
    requires StringLe(a, b) && StringLe(b, c)
    ensures StringLe(a, c)
  {
    if a != "" && a[0] == b[0] && b[0] == c[0] {
      StringLeTransitive(a[1..], b[1..], c[1..]);
    }
  }

  lemma {:induction false} StringLeAntisymmetric(a: string, b: string)
    requires StringLe(a, b) && StringLe(b, a)
    ensures a == b
  {
    if a != "" {
      StringLeAntisymmetric(a[1..], b[1..]);
      assert a == [a[0]] + a[1..] && b == [b[0]] + b[1..];
    }
  }

  predicate KeyLe(x: (string, Json), y: (string, Json)) {
    StringLe(x.0, y.0)
  }

  lemma KeyLePreorder()
    ensures TotalPreorder(KeyLe)
  {
    forall x: (string, Json), y: (string, Json) ensures KeyLe(x, y) || KeyLe(y, x) {
      StringLeTotal(x.0, y.0);
    }
    forall x: (string, Json), y: (string, Json), z: (string, Json) | KeyLe(x, y) && KeyLe(y, z)
      ensures KeyLe(x, z)
    {
      StringLeTransitive(x.0, y.0, z.0);
    }
  }

  ghost predicate DistinctKeys(members: seq<(string, Json)>) {
    forall i, j :: 0 <= i < j < |members| ==> members[i].0 != members[j].0
  }

  lemma DistinctKeysOrdered(members: seq<(string, Json)>)
    requires DistinctKeys(members)
    ensures Antisymmetric(KeyLe, members)
  {
    forall x, y | x in members && y in members && KeyLe(x, y) && KeyLe(y, x) ensures x == y {
      StringLeAntisymmetric(x.0, y.0);
    }
  }

  // ---------------------------------------------------------------------------
  // Canonical text
  // ---------------------------------------------------------------------------

  /** The value with the members of every object sorted by key. */
  function Normalize(v: Json): Json
    decreases v, 1
  {
    match v
    case Arr(items) => Arr(NormalizeItems(items))
    case Obj(members) => Obj(Sort(KeyLe, NormalizeMembers(members)))
    case _ => v
  }

  function NormalizeItems(items: seq<Json>): (r: seq<Json>)
    ensures |r| == |items|
    ensures forall i :: 0 <= i < |items| ==> r[i] == Normalize(items[i])
    decreases items, 0
  {
    seq(|items|, i requires 0 <= i < |items| => Normalize(items[i]))
  }

  function NormalizeMember(m: (string, Json)): (string, Json)
    decreases m, 2
  {
    (m.0, Normalize(m.1))
  }

  function NormalizeMembers(members: seq<(string, Json)>): (r: seq<(string, Json)>)
    ensures |r| == |members|
    ensures forall i :: 0 <= i < |members| ==> r[i] == NormalizeMember(members[i])
    decreases members, 0
  {
    seq(|members|, i requires 0 <= i < |members| => NormalizeMember(members[i]))
  }

  /** `json.dumps(v, sort_keys=True, separators=...)`. */
  function Dumps(sep: Separators, v: Json): string {
    Print(sep, Normalize(v))
  }

  function Canonicalize(v: Json): string {
    Dumps(COMPACT, v)
  }

  /** Every dictionary has each of its keys once. */
  ghost predicate WellFormed(v: Json) {
    match v
    case Arr(items) => forall i :: 0 <= i < |items| ==> WellFormed(items[i])
    case Obj(members) =>
      && DistinctKeys(members)
      && forall i :: 0 <= i < |members| ==> WellFormed(members[i].1)
    case _ => true
  }

  /**
   The same JSON value but for the order of members: lists by position; objects when they
   have equally many members and every member of the one is found, with the same value, in
   the other.
   */
  ghost predicate SameJson(a: Json, b: Json)
    decreases a, 1
  {
    match (a, b)
    case (Arr(x), Arr(y)) => |x| == |y| && forall i :: 0 <= i < |x| ==> SameJson(x[i], y[i])
    case (Obj(x), Obj(y)) => |x| == |y| && forall i :: 0 <= i < |x| ==> HasEntry(x[i], y)
    case _ => a == b
  }

  ghost predicate HasEntry(m: (string, Json), y: seq<(string, Json)>)
    decreases m, 2
  {
    exists j :: 0 <= j < |y| && m.0 == y[j].0 && SameJson(m.1, y[j].1)
  }

  lemma NormalizedDistinct(members: seq<(string, Json)>)
    requires DistinctKeys(members)
    ensures DistinctKeys(NormalizeMembers(members))
    ensures NoDuplicates(NormalizeMembers(members))
  {
    var r := NormalizeMembers(members);
    forall i, j | 0 <= i < j < |r| ensures r[i].0 != r[j].0 {
      assert r[i].0 == members[i].0 && r[j].0 == members[j].0;
    }
  }

  /** The same value in two orders normalises alike. */
  lemma {:induction false} EqualNormalizes(a: Json, b: Json)
    requires WellFormed(a) && WellFormed(b) && SameJson(a, b)
    ensures Normalize(a) == Normalize(b)
    decreases a
  {
    if a.Arr? && b.Arr? {
      forall i | 0 <= i < |a.items| ensures Normalize(a.items[i]) == Normalize(b.items[i]) {
        EqualNormalizes(a.items[i], b.items[i]);
      }
      assert NormalizeItems(a.items) == NormalizeItems(b.items);
    } else if a.Obj? && b.Obj? {
      forall i | 0 <= i < |a.members|
        ensures NormalizeMember(a.members[i]) in NormalizeMembers(b.members)
      {
        EqualMemberNormalizes(a.members[i], b.members);
      }
      SortedMembersAgree(a.members, b.members);
    }
  }

  lemma {:induction false} EqualMemberNormalizes(m: (string, Json), y: seq<(string, Json)>)
    requires WellFormed(m.1) && HasEntry(m, y)
    requires forall j :: 0 <= j < |y| ==> WellFormed(y[j].1)
    ensures NormalizeMember(m) in NormalizeMembers(y)
    decreases m
  {
    var j :| 0 <= j < |y| && m.0 == y[j].0 && SameJson(m.1, y[j].1);
    EqualNormalizes(m.1, y[j].1);
    assert NormalizeMembers(y)[j] == NormalizeMember(m);
  }

  lemma SortedMembersAgree(x: seq<(string, Json)>, y: seq<(string, Json)>)
    requires DistinctKeys(x) && |x| == |y|
    requires forall i :: 0 <= i < |x| ==> NormalizeMember(x[i]) in NormalizeMembers(y)
    ensures Sort(KeyLe, NormalizeMembers(x)) == Sort(KeyLe, NormalizeMembers(y))
  {
    var nx, ny := NormalizeMembers(x), NormalizeMembers(y);
    NormalizedDistinct(x);
    forall m | m in nx ensures m in ny {
      var i :| 0 <= i < |nx| && nx[i] == m;
      assert NormalizeMember(x[i]) in ny;
    }
    IncludedPermutes(nx, ny);
    KeyLePreorder();
    DistinctKeysOrdered(nx);
    SortOrderFree(KeyLe, nx, ny);
  }

  lemma Counterpart(x: seq<(string, Json)>, y: seq<(string, Json)>, i: nat) returns (j: nat)
    requires Sort(KeyLe, NormalizeMembers(x)) == Sort(KeyLe, NormalizeMembers(y))
    requires i < |x|
    ensures j < |y| && x[i].0 == y[j].0 && Normalize(x[i].1) == Normalize(y[j].1)
  {
    var nx, ny := NormalizeMembers(x), NormalizeMembers(y);
    SortPermutes(KeyLe, nx);
    SortPermutes(KeyLe, ny);
    MultisetMember(nx, ny, nx[i]);
    j :| 0 <= j < |ny| && ny[j] == nx[i];
    assert NormalizeMember(x[i]) == NormalizeMember(y[j]);
  }

  /** Values that normalise alike are the same but for order. */
  lemma {:induction false} NormalizedEqual(a: Json, b: Json)
    requires Normalize(a) == Normalize(b)
    ensures SameJson(a, b)
    decreases a
  {
    if a.Arr? && b.Arr? {
      forall i | 0 <= i < |a.items| ensures SameJson(a.items[i], b.items[i]) {
        assert NormalizeItems(a.items)[i] == NormalizeItems(b.items)[i];
        NormalizedEqual(a.items[i], b.items[i]);
      }
    } else if a.Obj? && b.Obj? {
      var x, y := a.members, b.members;
      forall i | 0 <= i < |x| ensures HasEntry(x[i], y) {
        var j := Counterpart(x, y, i);
        NormalizedEqual(x[i].1, y[j].1);
      }
    }
  }

  /**
   Two values have the same text exactly when they are the same JSON value: the text neither
   depends on the order in which dictionary entries were inserted, nor does it confuse two
   different values.
   */
  lemma DumpsDecidesEquality(sep: Separators, a: Json, b: Json)
    requires Usable(sep) && WellFormed(a) && WellFormed(b)
    ensures Dumps(sep, a) == Dumps(sep, b) <==> SameJson(a, b)
  {
    if SameJson(a, b) {
      EqualNormalizes(a, b);
    }
    if Dumps(sep, a) == Dumps(sep, b) {
      ParsePrint(sep, Normalize(a));
      ParsePrint(sep, Normalize(b));
      NormalizedEqual(a, b);
    }
  }

  /** Equality of Python objects, where `True == 1` and `False == 0`. */
  ghost predicate PyEqual(a: Json, b: Json)
    decreases a, 1
  {
    match (a, b)
    case (Arr(x), Arr(y)) => |x| == |y| && forall i :: 0 <= i < |x| ==> PyEqual(x[i], y[i])
    case (Obj(x), Obj(y)) => |x| == |y| && forall i :: 0 <= i < |x| ==> HasPyEntry(x[i], y)
    case (Bool(x), Int(y)) => y == if x then 1 else 0
    case (Int(x), Bool(y)) => x == if y then 1 else 0
    case _ => a == b
  }

  ghost predicate HasPyEntry(m: (string, Json), y: seq<(string, Json)>)
    decreases m, 2
  {
    exists j :: 0 <= j < |y| && m.0 == y[j].0 && PyEqual(m.1, y[j].1)
  }

  /** Nowhere does a truth value stand where the other value has a number. */
  ghost predicate KindsMatch(a: Json, b: Json)
    decreases a
  {
    match (a, b)
    case (Arr(x), Arr(y)) => forall i :: 0 <= i < |x| && i < |y| ==> KindsMatch(x[i], y[i])
    case (Obj(x), Obj(y)) =>
      forall i, j :: 0 <= i < |x| && 0 <= j < |y| && x[i].0 == y[j].0 ==> KindsMatch(x[i].1, y[j].1)
    case (Bool(_), Int(_)) => false
    case (Int(_), Bool(_)) => false
    case _ => true
  }

  /** The same JSON value is what Python calls equal, kinds of scalars apart. */
  lemma {:induction false} SameIsEqualInKind(a: Json, b: Json)
    requires WellFormed(a) && WellFormed(b)
    ensures SameJson(a, b) <==> PyEqual(a, b) && KindsMatch(a, b)
    decreases a
  {
    if a.Arr? && b.Arr? {
      forall i | 0 <= i < |a.items| && i < |b.items|
        ensures SameJson(a.items[i], b.items[i])
                <==> PyEqual(a.items[i], b.items[i]) && KindsMatch(a.items[i], b.items[i])
      {
        SameIsEqualInKind(a.items[i], b.items[i]);
      }
    } else if a.Obj? && b.Obj? {
      var x, y := a.members, b.members;
      forall i, j | 0 <= i < |x| && 0 <= j < |y|
        ensures SameJson(x[i].1, y[j].1) <==> PyEqual(x[i].1, y[j].1) && KindsMatch(x[i].1, y[j].1)
      {
        SameIsEqualInKind(x[i].1, y[j].1);
      }
      SameMembers(x, y);
    }
  }

  /** The case of objects, given the result on their values. */
  lemma SameMembers(x: seq<(string, Json)>, y: seq<(string, Json)>)
    requires DistinctKeys(y)
    requires forall i, j :: 0 <= i < |x| && 0 <= j < |y| ==>
               (SameJson(x[i].1, y[j].1) <==> PyEqual(x[i].1, y[j].1) && KindsMatch(x[i].1, y[j].1))
    ensures SameJson(Obj(x), Obj(y)) <==> PyEqual(Obj(x), Obj(y)) && KindsMatch(Obj(x), Obj(y))
  {
    if SameJson(Obj(x), Obj(y)) {
      forall i | 0 <= i < |x| ensures HasPyEntry(x[i], y) {
        assert HasEntry(x[i], y);
        var j :| 0 <= j < |y| && x[i].0 == y[j].0 && SameJson(x[i].1, y[j].1);
      }
      forall i, j | 0 <= i < |x| && 0 <= j < |y| && x[i].0 == y[j].0 ensures KindsMatch(x[i].1, y[j].1) {
        assert HasEntry(x[i], y);
        var k :| 0 <= k < |y| && x[i].0 == y[k].0 && SameJson(x[i].1, y[k].1);
        assert k == j;
      }
    } else if PyEqual(Obj(x), Obj(y)) && KindsMatch(Obj(x), Obj(y)) {
      forall i | 0 <= i < |x| ensures HasEntry(x[i], y) {
        assert HasPyEntry(x[i], y);
        var j :| 0 <= j < |y| && x[i].0 == y[j].0 && PyEqual(x[i].1, y[j].1);
      }
    }
  }

  /** The text is finer than Python's equality in one respect: it tells `true` from `1` and `false` from `0`. */
  lemma DumpsAndPythonEquality(sep: Separators, a: Json, b: Json)
    requires Usable(sep) && WellFormed(a) && WellFormed(b)
    ensures Dumps(sep, a) == Dumps(sep, b) <==> PyEqual(a, b) && KindsMatch(a, b)
  {
    DumpsDecidesEquality(sep, a, b);
    SameIsEqualInKind(a, b);
  }

  /** The parser recovers from the text a value that is the printed one but for order. */
  lemma DumpsRecovered(sep: Separators, v: Json)
    requires Usable(sep)
    ensures Parse(sep, Dumps(sep, v)) == Some(Normalize(v))
    ensures SameJson(v, Normalize(v))
  {
    ParsePrint(sep, Normalize(v));
    NormalizeTwice(v);
    NormalizedEqual(v, Normalize(v));
  }

  lemma {:induction false} NormalizeTwice(v: Json)
    ensures Normalize(Normalize(v)) == Normalize(v)
  {
    if v.Arr? {
      forall i | 0 <= i < |v.items| ensures Normalize(Normalize(v.items[i])) == Normalize(v.items[i]) {
        NormalizeTwice(v.items[i]);
      }
      assert NormalizeItems(NormalizeItems(v.items)) == NormalizeItems(v.items);
    } else if v.Obj? {
      var once := NormalizeMembers(v.members);
      var sorted := Sort(KeyLe, once);
      SortPermutes(KeyLe, once);
      forall i | 0 <= i < |sorted| ensures NormalizeMember(sorted[i]) == sorted[i] {
        MultisetMember(sorted, once, sorted[i]);
        var j :| 0 <= j < |once| && once[j] == sorted[i];
        NormalizeTwice(v.members[j].1);
      }
      assert NormalizeMembers(sorted) == sorted;
      KeyLePreorder();
      SortSorts(KeyLe, once);
      SortFixesSorted(KeyLe, sorted);
    }
  }

  /** In every object, at any depth, the keys stand in code point order. */
  ghost predicate KeysInOrder(v: Json) {
    match v
    case Arr(items) => forall i :: 0 <= i < |items| ==> KeysInOrder(items[i])
    case Obj(members) =>
      Sorted(KeyLe, members) && forall i :: 0 <= i < |members| ==> KeysInOrder(members[i].1)
    case _ => true
  }

  /** What is printed has its keys in order all the way down. */
  lemma {:induction false} NormalizedKeysInOrder(v: Json)
    ensures KeysInOrder(Normalize(v))
    decreases v
  {
    if v.Arr? {
      forall i | 0 <= i < |v.items| ensures KeysInOrder(NormalizeItems(v.items)[i]) {
        NormalizedKeysInOrder(v.items[i]);
      }
    } else if v.Obj? {
      var once := NormalizeMembers(v.members);
      KeyLePreorder();
      SortSorts(KeyLe, once);
      SortPermutes(KeyLe, once);
      var sorted := Sort(KeyLe, once);
      forall i | 0 <= i < |sorted| ensures KeysInOrder(sorted[i].1) {
        MultisetMember(sorted, once, sorted[i]);
        var j :| 0 <= j < |once| && once[j] == sorted[i];
        assert once[j] == NormalizeMember(v.members[j]);
        NormalizedKeysInOrder(v.members[j].1);
      }
    }
  }

  // ---------------------------------------------------------------------------
  // Alphabet of the text
  // ---------------------------------------------------------------------------

  /** Printable ASCII only, so that the UTF-8 encoding of the text is its character codes. */
  ghost predicate Ascii(s: string) {
    forall i :: 0 <= i < |s| ==> ' ' <= s[i] <= '~'
  }

  lemma EscapeCharAscii(c: char)
    ensures Ascii(EscapeChar(c))
  {
    if ShortEscape(c) || ' ' <= c <= '~' {
      PlainEscapeAscii(c);
    } else if c as int < 0x10000 {
      UnicodeEscapeAscii(c as int);
    } else {
      UnicodeEscapeAscii(0xD800 + (c as int - 0x10000) / 0x400);
      UnicodeEscapeAscii(0xDC00 + (c as int - 0x10000) % 0x400);
    }
  }

  lemma PlainEscapeAscii(c: char)
    requires ShortEscape(c) || ' ' <= c <= '~'
    ensures Ascii(EscapeChar(c))
  {
    var e := EscapeChar(c);
    assert |e| == 1 || |e| == 2;
    assert ' ' <= e[0] <= '~';
    assert |e| == 2 ==> ' ' <= e[1] <= '~';
  }

  lemma UnicodeEscapeAscii(n: nat)
    requires n < 0x10000
    ensures Ascii(UnicodeEscape(n))
  {
    Hex4RoundTrip(n);
  }

  lemma {:induction false} QuoteAscii(s: string)
    ensures Ascii(Escape(s)) && Ascii(Quote(s))
  {
    if s != "" {
      EscapeCharAscii(s[0]);
      QuoteAscii(s[1..]);
    }
  }

  lemma {:induction false} PrintNatAscii(n: nat)
    ensures Ascii(PrintNat(n))
  {
    if n >= 10 {
      PrintNatAscii(n / 10);
    }
  }

  /** Whatever characters a value holds, its text is printable ASCII. */
  lemma {:induction false} PrintAscii(sep: Separators, v: Json)
    requires Ascii(sep.item) && Ascii(sep.key)
    ensures Ascii(Print(sep, v))
    decreases v, 1
  {
    match v
    case Int(n) => PrintNatAscii(if n < 0 then -n else n);
    case Str(s) => QuoteAscii(s);
    case Arr(items) => if items != [] { ItemsAscii(sep, items); }
    case Obj(members) => if members != [] { MembersAscii(sep, members); }
    case _ =>
  }

  lemma {:induction false} ItemsAscii(sep: Separators, items: seq<Json>)
    requires Ascii(sep.item) && Ascii(sep.key) && items != []
    ensures Ascii(PrintItems(sep, items))
    decreases items, 0
  {
    PrintAscii(sep, items[0]);
    if |items| > 1 {
      ItemsAscii(sep, items[1..]);
    }
  }

  lemma {:induction false} MembersAscii(sep: Separators, members: seq<(string, Json)>)
    requires Ascii(sep.item) && Ascii(sep.key) && members != []
    ensures Ascii(PrintMembers(sep, members))
    decreases members, 0
  {
    MemberAscii(sep, members[0]);
    if |members| > 1 {
      MembersAscii(sep, members[1..]);
    }
  }

  lemma {:induction false} MemberAscii(sep: Separators, m: (string, Json))
    requires Ascii(sep.item) && Ascii(sep.key)
    ensures Ascii(PrintMember(sep, m))
    decreases m, 2
  {
    QuoteAscii(m.0);
    PrintAscii(sep, m.1);
  }
}
