/** The JSON text that Go's `encoding/json` writes for the wire structs, and a reader for it
    (RFC 8259; section 7 for strings). */
module Json {
  import opened Common

  /** A present field of a wire struct. `Null` is a pointer to a nil slice, which Go writes as `null`. */
  datatype Value = Null | Bool(b: bool) | Num(n: int) | Str(s: string) | List(items: seq<string>)

  // ---------- strings ----------

  function HexDigit(n: nat): char
    requires n < 16
  {
    if n < 10 then ('0' as int + n) as char else ('a' as int + n - 10) as char
  }

  function HexValue(c: char): Option<nat>
  {
    if '0' <= c <= '9' then Some(c as int - '0' as int)
    else if 'a' <= c <= 'f' then Some(c as int - 'a' as int + 10)
    else if 'A' <= c <= 'F' then Some(c as int - 'A' as int + 10)
    else None
  }

  /** Control characters, the HTML characters and the two line separators are written as \uXXXX. */
  predicate NeedsUnicodeEscape(c: char)
  {
    c < ' ' || c == '<' || c == '>' || c == '&' || c == '\U{2028}' || c == '\U{2029}'
  }

  function UnicodeEscape(n: nat): string
    requires n < 0x1_0000
  {
    "\\u" + [HexDigit(n / 0x1000), HexDigit(n / 0x100 % 16), HexDigit(n / 16 % 16), HexDigit(n % 16)]
  }

  function EscapeChar(c: char): (text: string)
    ensures text != [] && text[0] != '\"'
  {
    if c == '\"' then "\\\""
    else if c == '\\' then "\\\\"
    else if c as int == 8 then "\\b"
    else if c as int == 9 then "\\t"
    else if c as int == 10 then "\\n"
    else if c as int == 12 then "\\f"
    else if c as int == 13 then "\\r"
    else if NeedsUnicodeEscape(c) then UnicodeEscape(c as int)
    else [c]
  }

  function EscapeText(text: string): string
  {
    if text == [] then [] else EscapeChar(text[0]) + EscapeText(text[1..])
  }

  function Quote(text: string): string { "\"" + EscapeText(text) + "\"" }

  function ReadUnicodeEscape(s: string): (r: Option<(char, string)>)
    requires |s| >= 2
    ensures r.Some? ==> |r.value.1| < |s|
  {
    if |s| < 6 then None
    else
      var a :- HexValue(s[2]);
      var b :- HexValue(s[3]);
      var c :- HexValue(s[4]);
      var d :- HexValue(s[5]);
      var n := ((a * 16 + b) * 16 + c) * 16 + d;
      if 0xD800 <= n < 0xE000 || n >= 0x11_0000 then None else Some((n as char, s[6..]))
  }

  /** One character of a string body, escaped or not. */
  function ReadChar(s: string): (r: Option<(char, string)>)
    requires s != []
    ensures r.Some? ==> |r.value.1| < |s|
  {
    if s[0] != '\\' then Some((s[0], s[1..]))
    else if |s| < 2 then None
    else match s[1]
      case '\"' => Some(('\"', s[2..]))
      case '\\' => Some(('\\', s[2..]))
      case '/' => Some(('/', s[2..]))
      case 'b' => Some((8 as char, s[2..]))
      case 'f' => Some((12 as char, s[2..]))
      case 'n' => Some((10 as char, s[2..]))
      case 'r' => Some((13 as char, s[2..]))
      case 't' => Some((9 as char, s[2..]))
      case 'u' => ReadUnicodeEscape(s)
      case _ => None
  }

  /** The rest of a string whose opening quote has been read. */
  function ReadText(s: string): (r: Option<(string, string)>)
    ensures r.Some? ==> |r.value.1| < |s|
    decreases |s|
  {
    if s == [] then None
    else if s[0] == '\"' then Some(([], s[1..]))
    else
      var (c, rest) :- ReadChar(s);
      var (text, tail) :- ReadText(rest);
      Some(([c] + text, tail))
  }

  lemma HexRoundTrip(n: nat)
    requires n < 16
    ensures HexValue(HexDigit(n)) == Some(n)
  {
  }

  lemma FourHexDigits(n: nat)
    requires n < 0x1_0000
    ensures ((n / 0x1000 * 16 + n / 0x100 % 16) * 16 + n / 16 % 16) * 16 + n % 16 == n
  {
    assert n / 16 / 16 == n / 0x100 && n / 0x100 / 16 == n / 0x1000;
  }

  lemma ReadUnicodeEscaped(n: nat, rest: string)
    requires n < 0xD800
    ensures ReadChar(UnicodeEscape(n) + rest) == Some((n as char, rest))
  {
    var s, e := UnicodeEscape(n) + rest, UnicodeEscape(n);
    assert |e| == 6 && e[0] == '\\' && e[1] == 'u';
    assert s[6..] == rest && s[..6] == e;
    assert forall i :: 0 <= i < 6 ==> s[i] == e[i];
    HexRoundTrip(n / 0x1000);
    HexRoundTrip(n / 0x100 % 16);
    HexRoundTrip(n / 16 % 16);
    HexRoundTrip(n % 16);
    FourHexDigits(n);
    assert ReadChar(s) == ReadUnicodeEscape(s);
  }

  lemma ReadEscaped(c: char, rest: string)
    ensures ReadChar(EscapeChar(c) + rest) == Some((c, rest))
  {
    var s := EscapeChar(c) + rest;
    if EscapeChar(c) == UnicodeEscape(c as int % 0x1_0000) {
      ReadUnicodeEscaped(c as int, rest);
    } else if |EscapeChar(c)| == 2 {
      assert s[2..] == rest;
    } else {
      assert s[1..] == rest;
    }
  }

  lemma {:induction false} ReadQuoted(text: string, rest: string)
    ensures ReadText(EscapeText(text) + "\"" + rest) == Some((text, rest))
  {
    hide EscapeChar, ReadChar;
    if text == [] {
      assert EscapeText(text) + "\"" + rest == "\"" + rest;
    } else {
      var tail := EscapeText(text[1..]) + "\"" + rest;
      assert EscapeText(text) + "\"" + rest == EscapeChar(text[0]) + tail;
      ReadEscaped(text[0], tail);
      ReadQuoted(text[1..], rest);
      assert text == [text[0]] + text[1..];
    }
  }

  /** What has to be escaped in a string at least, and what Go escapes besides. */
  predicate Unsafe(c: char)
  {
    c < ' ' || c in {'<', '>', '&', '\U{2028}', '\U{2029}'}
  }

  lemma CharSafe(c: char)
    ensures forall x <- EscapeChar(c) :: !Unsafe(x)
    ensures !Unsafe(c) && c !in {'\"', '\\'} <==> EscapeChar(c) == [c]
  {
  }

  /** No unsafe character occurs in a string, and only the unsafe ones, quotes and backslashes are written otherwise. */
  lemma {:induction false} Escaped(text: string)
    ensures forall x <- EscapeText(text) :: !Unsafe(x)
    ensures (forall c <- text :: !Unsafe(c) && c !in {'\"', '\\'}) <==> EscapeText(text) == text
  {
    if text != [] {
      hide EscapeChar, Unsafe;
      Escaped(text[1..]);
      CharSafe(text[0]);
      EscapedLength(text[1..]);
      assert text == [text[0]] + text[1..];
      assert |EscapeChar(text[0])| >= 1;
    }
  }

  lemma {:induction false} EscapedLength(text: string)
    ensures |EscapeText(text)| >= |text|
  {
    if text != [] {
      EscapedLength(text[1..]);
      hide EscapeChar;
    }
  }

  /** The short escapes and two long ones. */
  lemma EscapeExamples()
    ensures EscapeChar('\n') == "\\n" && EscapeChar('\t') == "\\t" && EscapeChar('\"') == "\\\""
    ensures EscapeChar('<') == "\\u003c" && EscapeChar('\U{2028}') == "\\u2028"
  {
  }

  // ---------- numbers ----------

  function Digit(n: nat): char
    requires n < 10
  {
    ('0' as int + n) as char
  }

  predicate AllDigits(s: string) { forall i :: 0 <= i < |s| ==> '0' <= s[i] <= '9' }

  function Decimal(n: nat): (text: string)
    ensures text != [] && AllDigits(text)
    ensures text[0] == '0' <==> n == 0
  {
    if n < 10 then [Digit(n)] else Decimal(n / 10) + [Digit(n % 10)]
  }

  function Integer(n: int): string { if n < 0 then "-" + Decimal(-n) else Decimal(n) }

  predicate StartsWithDigit(s: string) { s != [] && '0' <= s[0] <= '9' }

  function ReadDigits(s: string, read: nat): (nat, string)
  {
    if StartsWithDigit(s) then ReadDigits(s[1..], read * 10 + (s[0] as int - '0' as int)) else (read, s)
  }

  function Shift(read: nat, digits: string): nat
    requires AllDigits(digits)
    decreases |digits|
  {
    if digits == [] then read else Shift(read * 10 + (digits[0] as int - '0' as int), digits[1..])
  }

  lemma {:induction false} ShiftLast(read: nat, digits: string, last: char)
    requires AllDigits(digits) && '0' <= last <= '9'
    ensures Shift(read, digits + [last]) == Shift(read, digits) * 10 + (last as int - '0' as int)
    decreases |digits|
  {
    if digits != [] {
      assert (digits + [last])[1..] == digits[1..] + [last];
      ShiftLast(read * 10 + (digits[0] as int - '0' as int), digits[1..], last);
    }
  }

  lemma {:induction false} ShiftDecimal(n: nat)
    ensures Shift(0, Decimal(n)) == n
  {
    if n >= 10 {
      ShiftDecimal(n / 10);
      ShiftLast(0, Decimal(n / 10), Digit(n % 10));
    }
  }

  lemma {:induction false} ReadDigitsShift(digits: string, rest: string, read: nat)
    requires AllDigits(digits) && !StartsWithDigit(rest)
    ensures ReadDigits(digits + rest, read) == (Shift(read, digits), rest)
    decreases |digits|
  {
    if digits == [] {
      assert digits + rest == rest;
    } else {
      assert (digits + rest)[1..] == digits[1..] + rest;
      ReadDigitsShift(digits[1..], rest, read * 10 + (digits[0] as int - '0' as int));
    }
  }

  lemma ReadDecimal(n: nat, rest: string)
    requires !StartsWithDigit(rest)
    ensures ReadDigits(Decimal(n) + rest, 0) == (n, rest)
  {
    ShiftDecimal(n);
    ReadDigitsShift(Decimal(n), rest, 0);
  }

  // ---------- values ----------

  /** Items of a list after the first, each with its comma. */
  function MoreItems(items: seq<string>): string
  {
    if items == [] then [] else "," + Quote(items[0]) + MoreItems(items[1..])
  }

  function Marshal(v: Value): (text: string)
    ensures text != []
  {
    match v
    case Null => "null"
    case Bool(b) => if b then "true" else "false"
    case Num(n) => Integer(n)
    case Str(s) => Quote(s)
    case List(items) => if items == [] then "[]" else "[" + Quote(items[0]) + MoreItems(items[1..]) + "]"
  }

  function ReadMoreItems(s: string): (r: Option<(seq<string>, string)>)
    decreases |s|
  {
    if |s| >= 2 && s[0] == ',' && s[1] == '\"' then
      var (item, rest) :- ReadText(s[2..]);
      var (items, tail) :- ReadMoreItems(rest);
      Some(([item] + items, tail))
    else if s != [] && s[0] == ']' then Some(([], s[1..]))
    else None
  }

  function ReadValue(s: string): Option<(Value, string)>
  {
    if s == [] then None
    else if s[0] == 'n' && "null" <= s then Some((Null, s[4..]))
    else if s[0] == 't' && "true" <= s then Some((Bool(true), s[4..]))
    else if s[0] == 'f' && "false" <= s then Some((Bool(false), s[5..]))
    else if s[0] == '\"' then
      var (text, rest) :- ReadText(s[1..]);
      Some((Str(text), rest))
    else if s[0] == '[' && "[]" <= s then Some((List([]), s[2..]))
    else if |s| >= 2 && s[0] == '[' && s[1] == '\"' then
      var (item, rest) :- ReadText(s[2..]);
      var (items, tail) :- ReadMoreItems(rest);
      Some((List([item] + items), tail))
    else if s[0] == '-' && StartsWithDigit(s[1..]) then
      var (n, rest) := ReadDigits(s[1..], 0);
      Some((Num(-(n as int)), rest))
    else if StartsWithDigit(s) then
      var (n, rest) := ReadDigits(s, 0);
      Some((Num(n), rest))
    else None
  }

  lemma Regroup(a: string, b: string, c: string, d: string, e: string)
    ensures a + b + c + d + e == a + (b + (c + d + e))
    ensures a + b + c + d == a + (b + (c + d))
    ensures (a + b + c) + d == a + (b + (c + d))
  {
  }

  lemma AfterOpeningQuote(first: char, body: string, more: string)
    ensures var s := [first] + (("\"" + body + "\"") + more);
            s[0] == first && s[1] == '\"' && s[2..] == body + "\"" + more && s[1..] == ("\"" + body + "\"") + more
  {
  }

  lemma AfterFirst(first: char, more: string)
    ensures ([first] + more)[0] == first && ([first] + more)[1..] == more
  {
  }

  lemma AfterQuote(body: string, more: string)
    ensures var s := ("\"" + body + "\"") + more; s[0] == '\"' && s[1..] == body + "\"" + more
  {
  }

  lemma {:induction false} ReadItems(items: seq<string>, rest: string)
    ensures ReadMoreItems(MoreItems(items) + "]" + rest) == Some((items, rest))
  {
    hide EscapeText, ReadText;
    var s := MoreItems(items) + "]" + rest;
    if items == [] {
      assert s == "]" + rest;
    } else {
      var tail := MoreItems(items[1..]) + "]" + rest;
      Regroup(",", Quote(items[0]), MoreItems(items[1..]), "]", rest);
      AfterOpeningQuote(',', EscapeText(items[0]), tail);
      ReadQuoted(items[0], tail);
      ReadItems(items[1..], rest);
      assert items == [items[0]] + items[1..];
    }
  }

  lemma ReadList(items: seq<string>, rest: string)
    ensures ReadValue(Marshal(List(items)) + rest) == Some((List(items), rest))
  {
    var s := Marshal(List(items)) + rest;
    if items == [] {
      assert s == "[]" + rest;
      assert s[0] == '[' && s[1] == ']' && s[..2] == "[]" && s[2..] == rest;
    } else {
      var tail := MoreItems(items[1..]) + "]" + rest;
      Regroup("[", Quote(items[0]), MoreItems(items[1..]), "]", rest);
      AfterOpeningQuote('[', EscapeText(items[0]), tail);
      ReadQuoted(items[0], tail);
      ReadItems(items[1..], rest);
      assert items == [items[0]] + items[1..];
    }
  }

  lemma ReadInteger(n: int, rest: string)
    requires !StartsWithDigit(rest)
    ensures ReadValue(Integer(n) + rest) == Some((Num(n), rest))
  {
    hide Decimal, ReadDigits, ReadText, ReadMoreItems;
    var s := Integer(n) + rest;
    if n < 0 {
      assert s == "-" + (Decimal(-n) + rest);
      AfterFirst('-', Decimal(-n) + rest);
      ReadDecimal(-n, rest);
      assert (Decimal(-n) + rest)[0] == Decimal(-n)[0];
    } else {
      ReadDecimal(n, rest);
      assert s[0] == Decimal(n)[0];
    }
  }

  lemma ReadString(text: string, rest: string)
    ensures ReadValue(Quote(text) + rest) == Some((Str(text), rest))
  {
    hide EscapeText, ReadText, ReadMoreItems, ReadDigits;
    var s := Quote(text) + rest;
    AfterQuote(EscapeText(text), rest);
    ReadQuoted(text, rest);
  }

  lemma ReadWord(v: Value, rest: string)
    requires v.Null? || v.Bool?
    ensures ReadValue(Marshal(v) + rest) == Some((v, rest))
  {
    hide Integer, Quote, MoreItems, ReadText, ReadMoreItems, ReadDigits;
    var word := Marshal(v);
    var s := word + rest;
    assert s[..|word|] == word && s[|word|..] == rest && s[0] == word[0];
  }

  /** Reading back a written value stops exactly at its end. */
  lemma ReadMarshalled(v: Value, rest: string)
    requires !StartsWithDigit(rest)
    ensures ReadValue(Marshal(v) + rest) == Some((v, rest))
  {
    hide ReadValue, Integer, Quote, MoreItems;
    match v
    case Null => ReadWord(v, rest);
    case Bool(_) => ReadWord(v, rest);
    case Num(n) => ReadInteger(n, rest);
    case Str(text) => ReadString(text, rest);
    case List(items) => ReadList(items, rest);
  }

  // ---------- objects ----------

  /** A struct as the JSON encoder sees it: its present fields with their names, in declaration order. */
  type Object = seq<(string, Value)>

  function Member(m: (string, Value)): string { Quote(m.0) + ":" + Marshal(m.1) }

  function MoreMembers(o: Object): string
  {
    if o == [] then [] else "," + Member(o[0]) + MoreMembers(o[1..])
  }

  function MarshalObject(o: Object): string
  {
    if o == [] then "{}" else "{" + Member(o[0]) + MoreMembers(o[1..]) + "}"
  }

  function ReadMember(s: string): Option<((string, Value), string)>
  {
    if s == [] || s[0] != '\"' then None
    else
      var (name, afterName) :- ReadText(s[1..]);
      if afterName == [] || afterName[0] != ':' then None
      else
        var (v, rest) :- ReadValue(afterName[1..]);
        Some(((name, v), rest))
  }

  function ReadMoreMembers(s: string): Option<(Object, string)>
    decreases |s|
  {
    if s == [] then None
    else if s[0] == '}' then Some(([], s[1..]))
    else if s[0] != ',' then None
    else
      var (m, rest) :- ReadMember(s[1..]);
      if |rest| >= |s| then None
      else
        var (ms, tail) :- ReadMoreMembers(rest);
        Some(([m] + ms, tail))
  }

  function UnmarshalObject(s: string): Option<Object>
  {
    if s == "{}" then Some([])
    else if s == [] || s[0] != '{' then None
    else
      var (m, rest) :- ReadMember(s[1..]);
      var (ms, tail) :- ReadMoreMembers(rest);
      if tail == [] then Some([m] + ms) else None
  }

  lemma ReadWrittenMember(m: (string, Value), rest: string)
    requires !StartsWithDigit(rest)
    ensures ReadMember(Member(m) + rest) == Some((m, rest))
  {
    var afterName := ":" + (Marshal(m.1) + rest);
    Regroup(Quote(m.0), ":", Marshal(m.1), rest, "");
    assert Member(m) + rest == Quote(m.0) + afterName;
    var s := Quote(m.0) + afterName;
    assert s[0] == '\"' && s[1..] == EscapeText(m.0) + "\"" + afterName by { AfterQuote(EscapeText(m.0), afterName); }
    ReadQuoted(m.0, afterName);
    AfterFirst(':', Marshal(m.1) + rest);
    ReadMarshalled(m.1, rest);
  }

  lemma {:induction false} ReadWrittenMembers(o: Object)
    ensures ReadMoreMembers(MoreMembers(o) + "}") == Some((o, []))
  {
    hide Member, ReadMember;
    var s := MoreMembers(o) + "}";
    if o == [] {
      assert s == "}" && s[1..] == [];
    } else {
      var tail := MoreMembers(o[1..]) + "}";
      Regroup(",", Member(o[0]), MoreMembers(o[1..]), "}", "");
      AfterFirst(',', Member(o[0]) + tail);
      ReadWrittenMember(o[0], tail);
      ReadWrittenMembers(o[1..]);
      assert o == [o[0]] + o[1..];
    }
  }

  /** What is marshalled unmarshals to itself. */
  lemma UnmarshalMarshal(o: Object)
    ensures UnmarshalObject(MarshalObject(o)) == Some(o)
  {
    hide Marshal, EscapeText, ReadMember, ReadMoreMembers;
    if o != [] {
      var s := MarshalObject(o);
      var tail := MoreMembers(o[1..]) + "}";
      Regroup("{", Member(o[0]), MoreMembers(o[1..]), "}", "");
      AfterFirst('{', Member(o[0]) + tail);
      ReadWrittenMember(o[0], tail);
      ReadWrittenMembers(o[1..]);
      assert o == [o[0]] + o[1..];
    }
  }

  lemma QuoteExample()
    ensures Quote("a") == "\"a\""
  {
    assert "a"[1..] == "" && EscapeText("a") == "a" + EscapeText("");
  }

  /** What each kind of value looks like. */
  lemma MarshalExamples()
    ensures Marshal(Null) == "null" && Marshal(Bool(true)) == "true" && Marshal(Bool(false)) == "false"
    ensures Marshal(Num(-10)) == "-10" && Marshal(Str("a")) == "\"a\"" && Marshal(List([])) == "[]"
    ensures Marshal(List(["a", "a"])) == "[\"a\",\"a\"]"
  {
    hide EscapeText, Quote;
    QuoteExample();
    assert Decimal(10) == Decimal(1) + ['0'];
    assert ["a", "a"][1..] == ["a"] && ["a"][1..] == [];
    assert MoreItems(["a"]) == ",\"a\"" + MoreItems([]);
  }

  /** What an object looks like. */
  lemma ObjectExample(v: Value, w: Value)
    ensures MarshalObject([("a", v), ("a", w)]) == "{\"a\":" + Marshal(v) + ",\"a\":" + Marshal(w) + "}"
  {
    hide Quote, Marshal;
    QuoteExample();
    var o := [("a", v), ("a", w)];
    assert o[1..] == [("a", w)] && [("a", w)][1..] == [];
    assert MoreMembers([("a", w)]) == ",\"a\":" + Marshal(w) + MoreMembers([]);
  }

  lemma MarshalInjective(a: Object, b: Object)
    ensures MarshalObject(a) == MarshalObject(b) <==> a == b
  {
    UnmarshalMarshal(a);
    UnmarshalMarshal(b);
  }
}
