/** Request addresses (RFC 3986): escaping of names, and resolution of operation paths against the server URL. */
module Url {
  import opened Common
  import opened Utf8

  // ---------- percent encoding (section 2.1) ----------

  predicate Unreserved(b: Byte)
  {
    0x41 <= b <= 0x5A || 0x61 <= b <= 0x7A || 0x30 <= b <= 0x39 || b in {0x2D, 0x5F, 0x2E, 0x7E}
  }

  /** What `url.PathEscape` leaves alone: unreserved bytes and `$ & + : = @`. */
  predicate Plain(b: Byte) { Unreserved(b) || b in {0x24, 0x26, 0x2B, 0x3A, 0x3D, 0x40} }

  function HexDigit(n: nat): char
    requires n < 16
  {
    if n < 10 then (n + '0' as int) as char else (n - 10 + 'A' as int) as char
  }

  function HexValue(c: char): (r: Option<nat>)
    ensures r.Some? ==> r.value < 16
  {
    if '0' <= c <= '9' then Some(c as int - '0' as int)
    else if 'A' <= c <= 'F' then Some(c as int - 'A' as int + 10)
    else if 'a' <= c <= 'f' then Some(c as int - 'a' as int + 10)
    else None
  }

  /** Bytes that need not be kept become `%` and two hexadecimal digits. */
  function EscapeBytes(kept: Byte -> bool, bytes: seq<Byte>): string
  {
    if bytes == [] then []
    else
      (if kept(bytes[0]) then [bytes[0] as char] else ['%', HexDigit(bytes[0] / 16), HexDigit(bytes[0] % 16)])
      + EscapeBytes(kept, bytes[1..])
  }

  function Escape(name: string): string { EscapeBytes(Plain, Utf8.Encode(name)) }

  function UnescapeBytes(text: string): Option<seq<Byte>>
    decreases |text|
  {
    if text == [] then Some([])
    else if text[0] == '%' then
      if |text| < 3 then None
      else
        var high :- HexValue(text[1]);
        var low :- HexValue(text[2]);
        var rest :- UnescapeBytes(text[3..]);
        Some([high * 16 + low] + rest)
    else if text[0] as int >= 256 then None
    else
      var rest :- UnescapeBytes(text[1..]);
      Some([text[0] as int] + rest)
  }

  /** How the server reads a path segment. */
  function Unescape(segment: string): Option<string>
  {
    var bytes :- UnescapeBytes(segment);
    Utf8.Decode(bytes)
  }

  lemma HexRoundTrip(n: nat)
    requires n < 16
    ensures HexValue(HexDigit(n)) == Some(n)
  {
  }

  lemma UnescapeKept(b: Byte, rest: string)
    requires b != 0x25 && UnescapeBytes(rest).Some?
    ensures UnescapeBytes([b as char] + rest) == Some([b] + UnescapeBytes(rest).value)
  {
    assert ([b as char] + rest)[1..] == rest;
  }

  lemma UnescapeEscaped(b: Byte, rest: string)
    requires UnescapeBytes(rest).Some?
    ensures UnescapeBytes(['%', HexDigit(b / 16), HexDigit(b % 16)] + rest) == Some([b] + UnescapeBytes(rest).value)
  {
    hide HexValue, HexDigit;
    HexRoundTrip(b / 16);
    HexRoundTrip(b % 16);
    assert (['%', HexDigit(b / 16), HexDigit(b % 16)] + rest)[3..] == rest;
  }

  lemma {:induction false} BytesRoundTrip(kept: Byte -> bool, bytes: seq<Byte>)
    requires !kept(0x25)
    ensures UnescapeBytes(EscapeBytes(kept, bytes)) == Some(bytes)
  {
    hide UnescapeBytes, HexDigit;
    if bytes == [] {
      assert UnescapeBytes("") == Some([]) by { UnescapeNothing(); }
    } else {
      BytesRoundTrip(kept, bytes[1..]);
      var b, rest := bytes[0], EscapeBytes(kept, bytes[1..]);
      if kept(b) {
        UnescapeKept(b, rest);
      } else {
        UnescapeEscaped(b, rest);
      }
      assert bytes == [b] + bytes[1..];
    }
  }

  lemma UnescapeNothing()
    ensures UnescapeBytes("") == Some([])
  {
  }

  /** Every name is recovered from its segment, whatever characters it holds. */
  lemma RoundTrip(name: string)
    ensures Unescape(Escape(name)) == Some(name)
  {
    BytesRoundTrip(Plain, Utf8.Encode(name));
    Utf8.RoundTrip(name);
  }

  /** A segment never ends the path or splits it. */
  lemma {:induction false} EscapedStaysOneSegment(bytes: seq<Byte>)
    ensures forall c <- EscapeBytes(Plain, bytes) :: c !in {'/', '?', '#'}
  {
    if bytes != [] {
      EscapedStaysOneSegment(bytes[1..]);
    }
  }

  lemma {:induction false} EscapeGrows(bytes: seq<Byte>)
    ensures |EscapeBytes(Plain, bytes)| >= |bytes|
    ensures |EscapeBytes(Plain, bytes)| == |bytes| ==> forall b <- bytes :: Plain(b)
  {
    if bytes != [] {
      EscapeGrows(bytes[1..]);
      hide Plain;
      assert bytes == [bytes[0]] + bytes[1..];
    }
  }

  /** What a path segment may hold as it is (`pchar` of section 3.3, without `! ' ( ) * , ;`). */
  predicate PlainChar(c: char)
  {
    || 'A' <= c <= 'Z' || 'a' <= c <= 'z' || '0' <= c <= '9'
    || c in {'-', '.', '_', '~', '$', '&', '+', ':', '=', '@'}
  }

  lemma {:induction false} PlainKept(name: string)
    requires forall c <- name :: PlainChar(c)
    ensures Escape(name) == name
  {
    if name != [] {
      assert forall c <- name[1..] :: c in name;
      PlainKept(name[1..]);
      assert PlainChar(name[0]);
      assert Utf8.Encode(name) == [name[0] as int] + Utf8.Encode(name[1..]);
      assert EscapeBytes(Plain, Utf8.Encode(name)) == [name[0]] + EscapeBytes(Plain, Utf8.Encode(name)[1..]);
    }
  }

  lemma {:induction false} EncodeGrows(name: string)
    ensures |Utf8.Encode(name)| >= |name|
    ensures |Utf8.Encode(name)| == |name| ==>
              forall i :: 0 <= i < |name| ==> name[i] as int < 0x80 && Utf8.Encode(name)[i] == name[i] as int
  {
    if name != [] {
      EncodeGrows(name[1..]);
      var e := Utf8.Encode(name[1..]);
      if |Utf8.Encode(name)| == |name| {
        assert |EncodeChar(name[0])| == 1;
        assert Utf8.Encode(name) == [name[0] as int] + e;
        assert forall i :: 0 < i < |name| ==> name[i] == name[1..][i - 1];
      }
    }
  }

  lemma PlainByte(c: char)
    requires c as int < 0x80
    ensures Plain(c as int) <==> PlainChar(c)
  {
  }

  /** Exactly the names that are sent as they are; the examples show what happens to others. */
  lemma SentAsWritten(name: string)
    ensures Escape(name) == name <==> forall c <- name :: PlainChar(c)
    ensures EscapeBytes(Plain, [0x20, 0x2F, 0xE9]) == "%20%2F%E9"
    ensures EscapeBytes(PathKept, [0x20, 0x2F, 0x2C]) == "%20/,"
  {
    if Escape(name) == name {
      EscapeGrows(Utf8.Encode(name));
      EncodeGrows(name);
      forall i | 0 <= i < |name|
        ensures PlainChar(name[i])
      {
        PlainByte(name[i]);
        assert Utf8.Encode(name)[i] in Utf8.Encode(name);
      }
    } else if forall c <- name :: PlainChar(c) {
      PlainKept(name);
    }
    var bytes: seq<Byte> := [0x20, 0x2F, 0xE9];
    assert bytes[1..] == [0x2F, 0xE9] && bytes[1..][1..] == [0xE9] && [0xE9][1..] == [];
    var more: seq<Byte> := [0x20, 0x2F, 0x2C];
    assert more[1..] == [0x2F, 0x2C] && more[1..][1..] == [0x2C] && [0x2C][1..] == [];
  }

  lemma EscapedDots(name: string)
    ensures Escape(name) == "." <==> name == "."
    ensures Escape(name) == ".." <==> name == ".."
    ensures Escape(name) == "" <==> name == ""
  {
    RoundTrip(name);
    RoundTrip(".");
    RoundTrip("..");
    RoundTrip("");
    assert Utf8.Encode(".") == [0x2E] + Utf8.Encode("");
    assert EscapeBytes(Plain, [0x2E]) == ['.'] + EscapeBytes(Plain, []);
    assert ".."[1..] == "." && Utf8.Encode("..") == [0x2E] + [0x2E];
    assert ([0x2E] + [0x2E])[1..] == [0x2E] && EscapeBytes(Plain, [0x2E, 0x2E]) == ['.'] + EscapeBytes(Plain, [0x2E]);
  }

  // ---------- paths ----------

  /** The segments between slashes; `Join` undoes it. */
  function Split(path: string): (segments: seq<string>)
    ensures segments != []
  {
    if path == "" then [""]
    else
      var rest := Split(path[1..]);
      if path[0] == '/' then [""] + rest else [[path[0]] + rest[0]] + rest[1..]
  }

  function Join(segments: seq<string>): string
  {
    if segments == [] then ""
    else if |segments| == 1 then segments[0]
    else segments[0] + "/" + Join(segments[1..])
  }

  lemma {:induction false} JoinSplit(path: string)
    ensures Join(Split(path)) == path
  {
    if path != "" {
      JoinSplit(path[1..]);
      var rest := Split(path[1..]);
      var all := Split(path);
      assert path == [path[0]] + path[1..];
      if path[0] == '/' {
        assert all[1..] == rest;
      } else if |rest| > 1 {
        assert all[1..] == rest[1..];
        assert ([path[0]] + rest[0]) + "/" + Join(rest[1..]) == [path[0]] + (rest[0] + "/" + Join(rest[1..]));
      }
    }
  }

  lemma SplitStep(path: string)
    ensures path == "" ==> Split(path) == [""]
    ensures path != "" ==>
              var rest := Split(path[1..]);
              Split(path) == if path[0] == '/' then [""] + rest else [[path[0]] + rest[0]] + rest[1..]
  {
  }

  lemma Prepended(c: char, left: seq<string>, right: seq<string>)
    requires left != []
    ensures [""] + (left + right) == ([""] + left) + right
    ensures [[c] + (left + right)[0]] + (left + right)[1..] == ([[c] + left[0]] + left[1..]) + right
  {
  }

  lemma {:induction false} SplitParts(a: string, b: string)
    ensures Split(a + "/" + b) == Split(a) + Split(b)
  {
    hide Split;
    var whole := a + "/" + b;
    SplitStep(whole);
    SplitStep(a);
    if a == "" {
      assert whole[1..] == b;
    } else {
      assert whole[0] == a[0] && whole[1..] == a[1..] + "/" + b;
      SplitParts(a[1..], b);
      Prepended(a[0], Split(a[1..]), Split(b));
    }
  }

  lemma {:induction false} SplitOne(segment: string)
    requires '/' !in segment
    ensures Split(segment) == [segment]
  {
    if segment != "" {
      SplitOne(segment[1..]);
      assert segment == [segment[0]] + segment[1..];
    }
  }

  /** Removal of dot segments (section 5.2.4), on the segments of an absolute path. */
  function RemoveDots(done: seq<string>, todo: seq<string>): seq<string>
    decreases |todo|
  {
    if todo == [] then done
    else
      var segment, rest := todo[0], todo[1..];
      var kept := if segment == "." then done
                  else if segment == ".." then (if |done| > 1 then done[..|done| - 1] else done)
                  else done + [segment];
      if segment in {".", ".."} && rest == [] then kept + [""] else RemoveDots(kept, rest)
  }

  predicate NoDots(segments: seq<string>) { "." !in segments && ".." !in segments }

  lemma {:induction false} DotsRemoved(done: seq<string>, plain: seq<string>, rest: seq<string>)
    requires NoDots(plain)
    ensures RemoveDots(done, plain + rest) == RemoveDots(done + plain, rest)
    decreases |plain|
  {
    if plain == [] {
      assert plain + rest == rest && done + plain == done;
    } else {
      assert (plain + rest)[1..] == plain[1..] + rest;
      assert (done + [plain[0]]) + plain[1..] == done + plain;
      DotsRemoved(done + [plain[0]], plain[1..], rest);
    }
  }

  /** No dot segment is left, and the path stays absolute. */
  lemma {:induction false} DotsGone(done: seq<string>, todo: seq<string>)
    requires done != [] && NoDots(done)
    ensures var r := RemoveDots(done, todo); r != [] && NoDots(r) && r[0] == done[0]
    decreases |todo|
  {
    if todo != [] {
      var segment, rest := todo[0], todo[1..];
      var kept := if segment == "." then done
                  else if segment == ".." then (if |done| > 1 then done[..|done| - 1] else done)
                  else done + [segment];
      if !(segment in {".", ".."} && rest == []) {
        DotsGone(kept, rest);
      }
    }
  }

  /** The example of section 5.2.4: `/a/b/c/./../../g` is `/a/g`. */
  lemma DotsExample()
    ensures RemoveDots([], ["", "a", "b", "c", ".", "..", "..", "g"]) == ["", "a", "g"]
  {
    DotsRemoved([], ["", "a", "b", "c"], [".", "..", "..", "g"]);
    var done := ["", "a", "b", "c"];
    assert [] + done == done && done + [".", "..", "..", "g"] == ["", "a", "b", "c", ".", "..", "..", "g"];
    assert RemoveDots(done, [".", "..", "..", "g"]) == RemoveDots(done, ["..", "..", "g"]);
    assert RemoveDots(done, ["..", "..", "g"]) == RemoveDots(["", "a", "b"], ["..", "g"]);
    assert RemoveDots(["", "a", "b"], ["..", "g"]) == RemoveDots(["", "a"], ["g"]);
  }

  // ---------- resolving an operation against the server ----------

  /** Length of the path part: everything before a query or fragment. */
  function PathLength(server: string): (n: nat)
    ensures n <= |server|
    ensures forall i :: 0 <= i < n ==> server[i] !in {'?', '#'}
    ensures n < |server| ==> server[n] in {'?', '#'}
  {
    if server == "" || server[0] in {'?', '#'} then 0 else 1 + PathLength(server[1..])
  }

  function PathOf(server: string): string { server[..PathLength(server)] }

  // ---------- the path of the server URL as it is sent ----------

  /** What Go leaves alone when it escapes a whole path. */
  predicate PathKept(b: Byte) { Plain(b) || b in {0x2F, 0x2C, 0x3B} }

  /** What Go accepts in a path that is escaped already: also `! ' ( ) * [ ]` and the percent sign. */
  predicate PathSafe(b: Byte) { PathKept(b) || b in {0x21, 0x27, 0x28, 0x29, 0x2A, 0x5B, 0x5D, 0x25} }

  /** A text as the sequence of its UTF-8 bytes, one character each. */
  function Bytewise(text: string): string
  {
    var bytes := Utf8.Encode(text);
    seq(|bytes|, i requires 0 <= i < |bytes| => bytes[i] as char)
  }

  /** The bytes that a path stands for, if it is well formed. */
  function PathBytes(path: string): Option<seq<Byte>> { UnescapeBytes(Bytewise(path)) }

  /** `EscapedPath`: the path as it was given if it is escaped already, else escaped anew. A path that is not well
      formed has no such form in Go; `ServerPath` excludes it. */
  function EscapedPath(path: string): string
  {
    if (forall b <- Utf8.Encode(path) :: PathSafe(b)) || PathBytes(path).None? then path
    else EscapeBytes(PathKept, PathBytes(path).value)
  }

  lemma {:induction false} EncodeAppended(a: string, b: string)
    ensures Utf8.Encode(a + b) == Utf8.Encode(a) + Utf8.Encode(b)
  {
    if a == [] {
      assert a + b == b;
    } else {
      assert (a + b)[1..] == a[1..] + b;
      EncodeAppended(a[1..], b);
    }
  }

  lemma {:induction false} UnescapeSlash(text: string)
    requires UnescapeBytes(text).Some?
    ensures UnescapeBytes(text + "/") == Some(UnescapeBytes(text).value + [0x2F])
    decreases |text|
  {
    hide HexValue;
    if text == [] {
      assert text + "/" == "/" && "/"[1..] == text;
      assert [0x2F] + UnescapeBytes(text).value == UnescapeBytes(text).value + [0x2F];
    } else if text[0] == '%' {
      assert (text + "/")[3..] == text[3..] + "/";
      UnescapeSlash(text[3..]);
      var first := [HexValue(text[1]).value * 16 + HexValue(text[2]).value];
      assert first + (UnescapeBytes(text[3..]).value + [0x2F]) == UnescapeBytes(text).value + [0x2F];
    } else {
      assert (text + "/")[1..] == text[1..] + "/";
      UnescapeSlash(text[1..]);
      var first := [text[0] as int];
      assert first + (UnescapeBytes(text[1..]).value + [0x2F]) == UnescapeBytes(text).value + [0x2F];
    }
  }

  lemma {:induction false} EscapeSlash(bytes: seq<Byte>)
    ensures EscapeBytes(PathKept, bytes + [0x2F]) == EscapeBytes(PathKept, bytes) + "/"
  {
    if bytes == [] {
      assert bytes + [0x2F] == [0x2F] && [0x2F][1..] == [];
      assert EscapeBytes(PathKept, [0x2F]) == ['/'] + EscapeBytes(PathKept, []);
    } else {
      assert (bytes + [0x2F])[1..] == bytes[1..] + [0x2F];
      EscapeSlash(bytes[1..]);
    }
  }

  lemma SlashBytes(path: string)
    ensures Utf8.Encode(path + "/") == Utf8.Encode(path) + [0x2F]
    ensures Bytewise(path + "/") == Bytewise(path) + "/"
  {
    EncodeAppended(path, "/");
    assert "/"[1..] == "" && Utf8.Encode("/") == [0x2F] + Utf8.Encode("");
  }

  /** The slash that `NewClient` adds stays where it is. */
  lemma SlashEscaped(path: string)
    requires PathBytes(path).Some?
    ensures EscapedPath(path + "/") == EscapedPath(path) + "/"
  {
    hide EscapeBytes, UnescapeBytes, Utf8.Encode, Bytewise;
    SlashBytes(path);
    UnescapeSlash(Bytewise(path));
    EscapeSlash(PathBytes(path).value);
    var raw := Utf8.Encode(path);
    assert PathSafe(0x2F);
    assert (forall b <- raw + [0x2F] :: PathSafe(b)) <==> (forall b <- raw :: PathSafe(b)) by {
      assert forall b <- raw :: b in raw + [0x2F];
    }
  }

  lemma {:induction false} AsciiBytewise(text: string)
    requires forall c <- text :: c as int < 0x80
    ensures Bytewise(text) == text
  {
    if text != [] {
      assert forall c <- text[1..] :: c in text;
      AsciiBytewise(text[1..]);
      assert text[0] in text;
      assert Utf8.Encode(text) == [text[0] as int] + Utf8.Encode(text[1..]);
      assert Bytewise(text) == [text[0]] + Bytewise(text[1..]);
    }
  }

  lemma {:induction false} EscapedIsAscii(bytes: seq<Byte>)
    ensures forall c <- EscapeBytes(PathKept, bytes) :: c as int < 0x80
  {
    if bytes != [] {
      EscapedIsAscii(bytes[1..]);
    }
  }

  /** What may stand in an escaped path. */
  predicate SafeChar(c: char)
  {
    PlainChar(c) || c in {'/', ',', ';', '!', '\'', '(', ')', '*', '[', ']', '%'}
  }

  lemma SafeByte(c: char)
    ensures c as int < 0x80 ==> (PathSafe(c as int) <==> SafeChar(c))
    ensures c as int >= 0x80 ==> !SafeChar(c)
  {
  }

  lemma AsciiEncoded(text: string)
    requires forall c <- text :: c as int < 0x80
    ensures |Utf8.Encode(text)| == |text|
    ensures forall i :: 0 <= i < |text| ==> Utf8.Encode(text)[i] == text[i] as int
  {
    AsciiBytewise(text);
    assert |Bytewise(text)| == |text|;
    forall i | 0 <= i < |text|
      ensures Utf8.Encode(text)[i] == text[i] as int
    {
      assert Bytewise(text)[i] == Utf8.Encode(text)[i] as char;
    }
  }

  lemma EscapedByteSafe(b: Byte)
    ensures PathKept(b) ==> SafeChar(b as char)
    ensures SafeChar('%') && SafeChar(HexDigit(b / 16)) && SafeChar(HexDigit(b % 16))
  {
  }

  lemma {:induction false} EscapedIsSafe(bytes: seq<Byte>)
    ensures forall c <- EscapeBytes(PathKept, bytes) :: SafeChar(c)
  {
    hide SafeChar, PathKept, HexDigit;
    if bytes != [] {
      EscapedIsSafe(bytes[1..]);
      EscapedByteSafe(bytes[0]);
    }
  }

  /** A path is sent as it was given exactly if it holds nothing that may not stand in an escaped path. */
  lemma KeptAsGiven(path: string)
    requires PathBytes(path).Some?
    ensures EscapedPath(path) == path <==> forall c <- path :: SafeChar(c)
  {
    hide PathBytes, SafeChar, PathSafe, EscapeBytes, Utf8.Encode;
    forall c: char
      ensures c as int < 0x80 ==> (PathSafe(c as int) <==> SafeChar(c))
      ensures c as int >= 0x80 ==> !SafeChar(c)
    {
      SafeByte(c);
    }
    if forall c <- path :: SafeChar(c) {
      AsciiEncoded(path);
      forall b | b in Utf8.Encode(path)
        ensures PathSafe(b)
      {
        var i :| 0 <= i < |path| && Utf8.Encode(path)[i] == b;
        assert path[i] in path && SafeChar(path[i]);
      }
    } else if forall b <- Utf8.Encode(path) :: PathSafe(b) {
      SafeEncoded(path);
    } else {
      EscapedIsSafe(PathBytes(path).value);
    }
  }

  lemma {:induction false} SafeEncoded(path: string)
    requires forall b <- Utf8.Encode(path) :: PathSafe(b)
    ensures forall c <- path :: SafeChar(c)
  {
    if path != [] {
      var first, rest := EncodeChar(path[0]), Utf8.Encode(path[1..]);
      assert forall b <- rest :: b in first + rest;
      SafeEncoded(path[1..]);
      assert first[0] in Utf8.Encode(path);
      SafeByte(path[0]);
      assert path[0] as int < 0x80;
      hide SafeChar, PathSafe;
      assert path == [path[0]] + path[1..];
    }
  }

  /** Escaping a path anew does not change what it stands for. */
  lemma EscapedPathMeans(path: string)
    requires PathBytes(path).Some?
    ensures PathBytes(EscapedPath(path)) == PathBytes(path)
  {
    if EscapedPath(path) != path {
      var bytes := PathBytes(path).value;
      EscapedIsAscii(bytes);
      AsciiBytewise(EscapeBytes(PathKept, bytes));
      BytesRoundTrip(PathKept, bytes);
    }
  }

  /** `strings.LastIndex(path, "/") + 1`. */
  function DirectoryLength(path: string): (n: nat)
    ensures n <= |path|
    ensures n > 0 ==> path[n - 1] == '/'
    ensures '/' !in path[n..]
  {
    if path == "" || path[|path| - 1] == '/' then |path|
    else
      var n := DirectoryLength(path[..|path| - 1]);
      assert path[n..] == path[..|path| - 1][n..] + [path[|path| - 1]];
      n
  }

  function Directory(path: string): string { path[..DirectoryLength(path)] }

  /** The path of the resolved reference: merged (section 5.2.3), cleared of dot segments, and absolute. */
  function Resolve(basePath: string, reference: string): string
  {
    var path := Join(RemoveDots([], Split(Directory(basePath) + reference)));
    if path != "" && path[0] == '/' then path else "/" + path
  }

  /** `NewClient` makes the server URL end in a slash. */
  function WithSlash(server: string): string
  {
    if server != "" && server[|server| - 1] == '/' then server else server + "/"
  }

  function ItemBelow(path: string, collection: string, name: string): string
  {
    Resolve(path, "./" + collection + "/" + Escape(name))
  }

  function CollectionBelow(path: string, collection: string): string { Resolve(path, "./" + collection) }

  /** The path a find, update or delete request is sent to. `server` is what follows the authority in the server
      URL, `collection` is `alias`, `domain` or `user`. */
  function ItemPath(server: string, collection: string, name: string): string
  {
    ItemBelow(EscapedPath(PathOf(server)), collection, name)
  }

  /** The path a create request is sent to. */
  function CollectionPath(server: string, collection: string): string
  {
    CollectionBelow(EscapedPath(PathOf(server)), collection)
  }

  function LastSegment(path: string): string { var s := Split(path); s[|s| - 1] }

  lemma {:induction false} DirectoryOf(dir: string, last: string)
    requires '/' !in last
    ensures Directory(dir + "/" + last) == dir + "/"
  {
    var path := dir + "/" + last;
    if last != "" {
      var shorter := last[..|last| - 1];
      assert path[..|path| - 1] == dir + "/" + shorter;
      assert path[|path| - 1] == last[|last| - 1];
      DirectoryOf(dir, shorter);
    } else {
      assert path == dir + "/";
    }
  }

  lemma {:induction false} JoinAppended(segments: seq<string>, last: string)
    requires segments != []
    ensures Join(segments + [last]) == Join(segments) + "/" + last
  {
    var all := segments + [last];
    assert all[1..] == segments[1..] + [last];
    if |segments| > 1 {
      JoinAppended(segments[1..], last);
      assert segments[0] + "/" + (Join(segments[1..]) + "/" + last) ==
             (segments[0] + "/" + Join(segments[1..])) + "/" + last;
    } else {
      assert segments[1..] + [last] == [last];
    }
  }

  /** An escaped base path without its last slash: absolute, without dot segments, query or fragment. */
  predicate Base(base: string)
  {
    (base == "" || base[0] == '/') && NoDots(Split(base)) && '?' !in base && '#' !in base
  }

  predicate Collection(c: string) { c in {"alias", "domain", "user"} }

  lemma CollectionPlain(c: string)
    requires Collection(c)
    ensures NoDots([c]) && forall x <- c :: x !in {'/', '?', '#'}
  {
  }

  lemma PlainPath(path: string, rest: string)
    requires forall x <- path :: x !in {'?', '#'}
    requires rest == "" || rest[0] in {'?', '#'}
    ensures PathOf(path + rest) == path
  {
    var server := path + rest;
    assert forall i :: 0 <= i < |path| ==> server[i] == path[i] && path[i] in path;
    assert rest != "" ==> server[|path|] == rest[0];
  }

  lemma UnderBase(base: string, c: string, rest: seq<string>)
    requires NoDots(Split(base)) && NoDots([c])
    ensures RemoveDots([], Split(base) + [".", c] + rest) == RemoveDots(Split(base) + [c], rest)
  {
    var dirs := Split(base);
    assert dirs + [".", c] + rest == dirs + ([".", c] + rest);
    DotsRemoved([], dirs, [".", c] + rest);
    assert [] + dirs == dirs;
    assert ([".", c] + rest)[1..] == [c] + rest;
    DotsRemoved(dirs, [c], rest);
  }

  lemma Merged(base: string, c: string, last: string)
    requires '/' !in c && '/' !in last
    ensures Split(base + "/" + ("./" + c + "/" + last)) == Split(base) + [".", c] + [last]
    ensures Split(base + "/" + ("./" + c)) == Split(base) + [".", c]
  {
    SplitParts(base, "./" + c + "/" + last);
    SplitParts("./" + c, last);
    SplitParts(".", c);
    SplitParts(base, "./" + c);
    SplitOne(".");
    SplitOne(c);
    SplitOne(last);
    hide Split;
    assert "./" + c == "." + "/" + c;
    assert ["."] + [c] == [".", c];
    assert Split(base) + ([".", c] + [last]) == Split(base) + [".", c] + [last];
  }

  lemma JoinedBase(base: string, c: string, segment: string)
    requires Base(base)
    ensures var here := Split(base) + [c];
            && Join(Split(base) + [""]) == base + "/"
            && Join(here) == base + "/" + c
            && Join(here + [""]) == base + "/" + c + "/"
            && Join(here + [segment]) == base + "/" + c + "/" + segment
  {
    hide Split;
    JoinSplit(base);
    JoinAppended(Split(base), c);
    JoinAppended(Split(base), "");
    JoinAppended(Split(base) + [c], "");
    JoinAppended(Split(base) + [c], segment);
  }

  /** Addressing, exactly, below an escaped path. Its last segment `last` is dropped, which is why the path has to
      end in a slash (`last` empty) for the whole base to be kept. Below it come the collection and the escaped
      name, except that `.` reaches the collection and `..` the base itself. */
  lemma Addressed(base: string, last: string, c: string, name: string)
    requires Base(base) && Collection(c) && forall x <- last :: x !in {'/', '?', '#'}
    ensures ItemBelow(base + "/" + last, c, name) ==
            if name == ".." then base + "/"
            else if name == "." then base + "/" + c + "/"
            else base + "/" + c + "/" + Escape(name)
    ensures CollectionBelow(base + "/" + last, c) == base + "/" + c
  {
    hide Escape, Split, DirectoryLength, Join;
    CollectionPlain(c);
    var segment := Escape(name);
    EscapedSegment(name);
    EscapedDots(name);
    DirectoryOf(base, last);
    Merged(base, c, segment);
    UnderBase(base, c, [segment]);
    UnderBase(base, c, []);
    JoinedBase(base, c, segment);
    var here := Split(base) + [c];
    assert Split(base) + [".", c] + [] == Split(base) + [".", c];
    assert [segment][1..] == [] && here[..|here| - 1] == Split(base);
  }

  /** A server URL without a path, as one with a query right after the authority: the path is made absolute. */
  lemma AddressedAtRoot(c: string, name: string)
    requires Collection(c) && name !in {".", ".."}
    ensures ItemBelow("", c, name) == "/" + c + "/" + Escape(name)
    ensures CollectionBelow("", c) == "/" + c
  {
    hide Escape, Split;
    var segment := Escape(name);
    CollectionPlain(c);
    EscapedSegment(name);
    EscapedDots(name);
    SplitOne(".");
    SplitOne(c);
    SplitOne(segment);
    SplitParts(".", c);
    SplitParts("./" + c, segment);
    assert "./" + c == "." + "/" + c && "" + ("./" + c) == "./" + c;
    assert "" + ("./" + c + "/" + segment) == "./" + c + "/" + segment;
    RootDots(c, segment);
    assert ["."] + [c] == [".", c] && [".", c] + [segment] == [".", c, segment];
    assert c != "" && c[0] in c;
  }

  lemma RootDots(c: string, segment: string)
    requires NoDots([c]) && NoDots([segment])
    ensures Join(RemoveDots([], [".", c, segment])) == c + "/" + segment && Join(RemoveDots([], [".", c])) == c
  {
    assert c in [c] && segment in [segment];
    assert [".", c, segment][1..] == [c, segment] && [".", c][1..] == [c];
    DotsRemoved([], [c, segment], []);
    DotsRemoved([], [c], []);
    assert [c, segment] + [] == [c, segment] && [c] + [] == [c] && [] + [c, segment] == [c, segment] && [] + [c] == [c];
    assert [c, segment][1..] == [segment];
  }

  lemma EscapedSegment(name: string)
    ensures '/' !in Escape(name)
  {
    EscapedStaysOneSegment(Utf8.Encode(name));
  }

  // ---------- what the client relies on ----------

  /** Names that a path can carry to a single object. The empty name leads to the collection with a slash, and so
      does `.`; `..` leads to the base. */
  predicate Addressable(name: string) { name !in {"", ".", ".."} }

  /** The server's path without the slash that `NewClient` would add. */
  function Trimmed(server: string): string
  {
    if server != "" && server[|server| - 1] == '/' then server[..|server| - 1] else server
  }

  lemma SlashAdded(server: string)
    ensures WithSlash(server) == Trimmed(server) + "/"
  {
  }

  /** A server URL whose path, query and fragment aside, is well formed and has no dot segments as it is sent. */
  predicate ServerPath(server: string)
  {
    var t := Trimmed(server);
    '?' !in t && '#' !in t && PathBytes(t).Some? && Base(EscapedPath(t))
  }

  /** The base below which the client's requests go. */
  function SentBase(server: string): string { EscapedPath(Trimmed(server)) }

  lemma ServerBase(server: string)
    requires ServerPath(server)
    ensures Base(SentBase(server))
  {
  }

  lemma SentPaths(server: string, c: string, name: string)
    requires ServerPath(server)
    ensures ItemPath(WithSlash(server), c, name) == ItemBelow(SentBase(server) + "/" + "", c, name)
    ensures CollectionPath(WithSlash(server), c) == CollectionBelow(SentBase(server) + "/" + "", c)
  {
    hide EscapedPath, PathLength, Resolve, Base;
    var t := Trimmed(server);
    SlashAdded(server);
    assert forall x <- t + "/" :: x in t || x == '/';
    PlainPath(t + "/", "");
    assert t + "/" + "" == t + "/" == WithSlash(server);
    assert PathOf(WithSlash(server)) == t + "/";
    SlashEscaped(t);
    assert SentBase(server) + "/" + "" == SentBase(server) + "/";
  }

  lemma LastOf(front: string, last: string)
    requires '/' !in last
    ensures LastSegment(front + "/" + last) == last
  {
    SplitParts(front, last);
    SplitOne(last);
  }

  /** With the slash that `NewClient` adds the whole base path is kept, but for the dot names; and the path ends in
      a segment from which the server reads the name back exactly when the name is addressable. */
  lemma NameRecovered(server: string, c: string, name: string)
    requires ServerPath(server) && Collection(c)
    ensures var path := ItemPath(WithSlash(server), c, name);
            var last := LastSegment(path);
            && (last != "" && Unescape(last) == Some(name) <==> Addressable(name))
            && (path == SentBase(server) + "/" + c + "/" + Escape(name) <==> name !in {".", ".."})
  {
    hide Split, ItemPath, ItemBelow, Unescape, Escape, EscapedPath;
    var base := SentBase(server);
    SentPaths(server, c, name);
    Addressed(base, "", c, name);
    RoundTrip(name);
    EscapedDots("");
    EscapedDots(name);
    EscapedSegment(name);
    LastOf(base + "/" + c, Escape(name));
    LastOf(base + "/" + c, "");
    LastOf(base, "");
    hide LastSegment;
    assert base + "/" + c + "/" + "" == base + "/" + c + "/";
    assert base + "/" + "" == base + "/";
  }

  /** Two requests for single objects go to the same path only if they are for the same object, and none goes
      to the path of a create request. */
  lemma PathsDiffer(server: string, c: string, name: string, d: string, other: string)
    requires ServerPath(server) && Collection(c) && Collection(d) && Addressable(name) && Addressable(other)
    ensures ItemPath(WithSlash(server), c, name) == ItemPath(WithSlash(server), d, other) <==> c == d && name == other
    ensures ItemPath(WithSlash(server), c, name) != CollectionPath(WithSlash(server), d)
  {
    hide Split, ItemPath, CollectionPath, ItemBelow, CollectionBelow, Unescape, Escape, EscapedPath;
    var base := SentBase(server);
    NameRecovered(server, c, name);
    NameRecovered(server, d, other);
    SentPaths(server, d, other);
    Addressed(base, "", d, other);
    EscapedSegment(name);
    EscapedSegment(other);
    CollectionPlain(c);
    CollectionPlain(d);
    SegmentsBelow(base, c, Escape(name));
    SegmentsBelow(base, d, Escape(other));
    SplitParts(base, d);
    SplitOne(d);
    if ItemPath(WithSlash(server), c, name) == ItemPath(WithSlash(server), d, other) {
      assert (Split(base) + [c, Escape(name)])[|Split(base)|] == (Split(base) + [d, Escape(other)])[|Split(base)|];
      assert (Split(base) + [c, Escape(name)])[|Split(base)| + 1] ==
             (Split(base) + [d, Escape(other)])[|Split(base)| + 1];
      RoundTrip(name);
      RoundTrip(other);
    }
  }

  lemma SegmentsBelow(base: string, c: string, segment: string)
    requires '/' !in c && '/' !in segment
    ensures Split(base + "/" + c + "/" + segment) == Split(base) + [c, segment]
  {
    SplitParts(base + "/" + c, segment);
    SplitParts(base, c);
    SplitOne(c);
    SplitOne(segment);
    hide Split;
    assert (Split(base) + [c]) + [segment] == Split(base) + [c, segment];
  }

  /** A server URL with a query or fragment: the added slash lands there, and the last path segment is lost. */
  lemma QueryDefeatsSlash(path: string, base: string, last: string, query: string, c: string, name: string)
    requires '?' !in path && '#' !in path && EscapedPath(path) == base + "/" + last
    requires Base(base) && Collection(c) && name !in {".", ".."} && forall x <- last :: x !in {'/', '?', '#'}
    requires query != "" && query[0] in {'?', '#'}
    ensures ItemPath(WithSlash(path + query), c, name) == base + "/" + c + "/" + Escape(name)
  {
    hide Escape, ItemBelow, Split, PathLength, EscapedPath;
    var server := path + query;
    Addressed(base, last, c, name);
    PlainPath(path, query);
    PlainPath(path, query + "/");
    assert path + (query + "/") == path + query + "/";
    assert server[|server| - 1] == query[|query| - 1];
  }
}
