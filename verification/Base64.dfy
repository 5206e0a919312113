/** Padded base64 (section 4 of RFC 4648) as Go's `StdEncoding` reads it: line breaks are skipped,
    the unused bits before the padding are ignored. */
module Base64 {
  import opened Common
  import opened Utf8

  const PAD: Byte := 0x3D
  const LF: Byte := 0x0A
  const CR: Byte := 0x0D

  type Sextet = n: nat | n < 64

  function Symbol(v: Sextet): Byte
  {
    if v < 26 then v + 0x41 else if v < 52 then v - 26 + 0x61 else if v < 62 then v - 52 + 0x30
    else if v == 62 then 0x2B else 0x2F
  }

  function Meaning(b: Byte): Option<Sextet>
  {
    if 0x41 <= b <= 0x5A then Some(b - 0x41)
    else if 0x61 <= b <= 0x7A then Some(b - 0x61 + 26)
    else if 0x30 <= b <= 0x39 then Some(b - 0x30 + 52)
    else if b == 0x2B then Some(62)
    else if b == 0x2F then Some(63)
    else None
  }

  function Encode(data: seq<Byte>): seq<Byte>
  {
    if data == [] then []
    else if |data| == 1 then [Symbol(data[0] / 4), Symbol(data[0] % 4 * 16), PAD, PAD]
    else if |data| == 2 then
      [Symbol(data[0] / 4), Symbol(data[0] % 4 * 16 + data[1] / 16), Symbol(data[1] % 16 * 4), PAD]
    else
      [Symbol(data[0] / 4), Symbol(data[0] % 4 * 16 + data[1] / 16),
       Symbol(data[1] % 16 * 4 + data[2] / 64), Symbol(data[2] % 64)] + Encode(data[3..])
  }

  /** The bytes of one group of four symbols and whether it is padded, hence the last. */
  function DecodeGroup(q: seq<Byte>): (r: Option<(seq<Byte>, bool)>)
    requires |q| == 4
    ensures r.Some? ==> |r.value.0| <= 3 && (!r.value.1 ==> |r.value.0| == 3)
  {
    var a :- Meaning(q[0]);
    var b :- Meaning(q[1]);
    if q[2] == PAD then
      if q[3] == PAD then Some(([a * 4 + b / 16], true)) else None
    else
      var c :- Meaning(q[2]);
      if q[3] == PAD then Some(([a * 4 + b / 16, b % 16 * 16 + c / 4], true))
      else
        var d :- Meaning(q[3]);
        Some(([a * 4 + b / 16, b % 16 * 16 + c / 4, c % 4 * 64 + d], false))
  }

  function DecodeGroups(s: seq<Byte>): Option<seq<Byte>>
  {
    if s == [] then Some([])
    else if |s| < 4 then None
    else
      var (bytes, last) :- DecodeGroup(s[..4]);
      if last then (if |s| == 4 then Some(bytes) else None)
      else
        var rest :- DecodeGroups(s[4..]);
        Some(bytes + rest)
  }

  function Unwrap(s: seq<Byte>): seq<Byte>
  {
    if s == [] then []
    else if s[0] == LF || s[0] == CR then Unwrap(s[1..])
    else [s[0]] + Unwrap(s[1..])
  }

  function Decode(s: seq<Byte>): Option<seq<Byte>> { DecodeGroups(Unwrap(s)) }

  function DecodedLen(n: nat): nat { n / 4 * 3 }

  lemma MeaningSymbol(v: Sextet)
    ensures Meaning(Symbol(v)) == Some(v) && Symbol(v) !in {PAD, LF, CR}
  {
  }

  lemma Resplit(a: Byte, b: Byte, c: Byte)
    ensures a / 4 * 4 + a % 4 * 16 / 16 == a && a / 4 * 4 + (a % 4 * 16 + b / 16) / 16 == a
    ensures (a % 4 * 16 + b / 16) % 16 * 16 + b % 16 * 4 / 4 == b
    ensures (a % 4 * 16 + b / 16) % 16 * 16 + (b % 16 * 4 + c / 64) / 4 == b
    ensures (b % 16 * 4 + c / 64) % 4 * 64 + c % 64 == c
  {
  }

  lemma GroupRoundTrip(data: seq<Byte>)
    requires 1 <= |data| <= 3
    ensures |Encode(data)| == 4 && DecodeGroup(Encode(data)) == Some((data, |data| < 3))
  {
    var a := data[0];
    MeaningSymbol(a / 4);
    if |data| == 1 {
      MeaningSymbol(a % 4 * 16);
      Resplit(a, 0, 0);
      assert data == [a];
    } else if |data| == 2 {
      var b := data[1];
      MeaningSymbol(a % 4 * 16 + b / 16);
      MeaningSymbol(b % 16 * 4);
      Resplit(a, b, 0);
      assert data == [a, b];
    } else {
      FullGroupRoundTrip(a, data[1], data[2]);
      assert data == [a, data[1], data[2]];
    }
  }

  lemma FullGroup(p: Sextet, q: Sextet, r: Sextet, t: Sextet)
    ensures DecodeGroup([Symbol(p), Symbol(q), Symbol(r), Symbol(t)]) ==
            Some(([p * 4 + q / 16, q % 16 * 16 + r / 4, r % 4 * 64 + t], false))
  {
    MeaningSymbol(p);
    MeaningSymbol(q);
    MeaningSymbol(r);
    MeaningSymbol(t);
  }

  lemma FullGroupRoundTrip(a: Byte, b: Byte, c: Byte)
    ensures |Encode([a, b, c])| == 4 && DecodeGroup(Encode([a, b, c])) == Some(([a, b, c], false))
  {
    hide DecodeGroup, Symbol;
    FullGroup(a / 4, a % 4 * 16 + b / 16, b % 16 * 4 + c / 64, c % 64);
    Resplit(a, b, c);
    var data := [a, b, c];
    assert data[3..] == [] && Encode([]) == [];
    assert Encode(data) == [Symbol(a / 4), Symbol(a % 4 * 16 + b / 16), Symbol(b % 16 * 4 + c / 64), Symbol(c % 64)];
  }

  lemma {:induction false} GroupsRoundTrip(data: seq<Byte>)
    ensures DecodeGroups(Encode(data)) == Some(data)
  {
    if data != [] {
      var n := if |data| < 3 then |data| else 3;
      GroupRoundTrip(data[..n]);
      var head := Encode(data[..n]);
      if |data| >= 3 {
        assert Encode(data)[..4] == head && Encode(data)[4..] == Encode(data[3..]);
        GroupsRoundTrip(data[3..]);
        assert data == data[..3] + data[3..];
      } else {
        assert data[..n] == data && Encode(data)[..4] == head;
      }
    }
  }

  lemma {:induction false} UnwrapPlain(s: seq<Byte>)
    requires LF !in s && CR !in s
    ensures Unwrap(s) == s
  {
    if s != [] {
      assert forall b <- s[1..] :: b in s;
      UnwrapPlain(s[1..]);
      assert s[0] in s && s == [s[0]] + s[1..];
    }
  }

  lemma {:induction false} EncodedPlain(data: seq<Byte>)
    ensures LF !in Encode(data) && CR !in Encode(data)
  {
    if |data| >= 3 {
      EncodedPlain(data[3..]);
    }
    forall v: Sextet
      ensures Symbol(v) !in {PAD, LF, CR}
    {
      MeaningSymbol(v);
    }
    hide Symbol;
  }

  lemma UnwrapEncoded(data: seq<Byte>)
    ensures Unwrap(Encode(data)) == Encode(data)
  {
    EncodedPlain(data);
    UnwrapPlain(Encode(data));
  }

  /** Any wrapping of the encoding of `data` over lines decodes to `data`. */
  lemma DecodeWrapped(wrapped: seq<Byte>, data: seq<Byte>)
    requires Unwrap(wrapped) == Encode(data)
    ensures Decode(wrapped) == Some(data)
  {
    GroupsRoundTrip(data);
  }

  lemma DecodeEncode(data: seq<Byte>)
    ensures Decode(Encode(data)) == Some(data)
  {
    UnwrapEncoded(data);
    GroupsRoundTrip(data);
  }

  // ---------- what is base64 at all ----------

  predicate Letter(b: Byte)
  {
    0x41 <= b <= 0x5A || 0x61 <= b <= 0x7A || 0x30 <= b <= 0x39 || b == 0x2B || b == 0x2F
  }

  /** Groups of four letters, the last one padded with one or two equals signs at most. */
  predicate WellFormed(t: seq<Byte>)
  {
    && |t| % 4 == 0
    && forall i :: 0 <= i < |t| ==>
         Letter(t[i]) || (t[i] == PAD && (i == |t| - 1 || (i == |t| - 2 && t[|t| - 1] == PAD)))
  }

  lemma GroupExactly(q: seq<Byte>)
    requires |q| == 4
    ensures DecodeGroup(q).Some? <==> WellFormed(q)
    ensures DecodeGroup(q).Some? && !DecodeGroup(q).value.1 <==> forall b <- q :: Letter(b)
  {
    assert q[0] in q && q[1] in q && q[2] in q && q[3] in q;
    assert forall b <- q :: b == q[0] || b == q[1] || b == q[2] || b == q[3];
  }

  lemma WellFormedParts(t: seq<Byte>)
    requires |t| > 4
    ensures WellFormed(t) <==> (forall b <- t[..4] :: Letter(b)) && WellFormed(t[4..])
  {
    PadIsNoLetter();
    hide Letter;
    var q, rest := t[..4], t[4..];
    assert forall i :: 0 <= i < 4 ==> q[i] == t[i] && q[i] in q;
    assert forall i :: 0 <= i < |rest| ==> rest[i] == t[i + 4];
    if WellFormed(rest) && forall b <- q :: Letter(b) {
      assert forall i :: 4 <= i < |t| ==> t[i] == rest[i - 4];
    }
  }

  lemma {:induction false} GroupsExactly(t: seq<Byte>)
    ensures DecodeGroups(t).Some? <==> WellFormed(t)
  {
    hide DecodeGroup, Letter, WellFormed;
    if |t| > 4 {
      GroupExactly(t[..4]);
      GroupsExactly(t[4..]);
      WellFormedParts(t);
    } else if |t| == 4 {
      GroupExactly(t);
      assert t[..4] == t && t[4..] == [];
    } else {
      ShortExactly(t);
    }
  }

  lemma ShortExactly(t: seq<Byte>)
    requires |t| < 4
    ensures WellFormed(t) <==> t == []
  {
  }

  lemma PadIsNoLetter()
    ensures !Letter(PAD)
  {
  }

  /** Exactly the texts that decode: well-formed once the line breaks are gone. */
  lemma DecodesExactly(s: seq<Byte>)
    ensures Decode(s).Some? <==> WellFormed(Unwrap(s))
  {
    GroupsExactly(Unwrap(s));
  }

  /** Line feeds and carriage returns go, and nothing else does. */
  lemma {:induction false} Unwrapped(s: seq<Byte>, b: Byte)
    ensures Unwrap(s + [b]) == Unwrap(s) + if b in {0x0A, 0x0D} then [] else [b]
  {
    if s == [] {
      assert s + [b] == [b] && [b][1..] == [];
    } else {
      assert (s + [b])[1..] == s[1..] + [b];
      Unwrapped(s[1..], b);
    }
  }

  /** Test vectors of section 10 of RFC 4648, and the two symbols that they lack. */
  lemma Examples()
    ensures Encode([0x66]) == [0x5A, 0x67, PAD, PAD]
    ensures Encode([0x66, 0x6F]) == [0x5A, 0x6D, 0x38, PAD]
    ensures Encode([0x66, 0x6F, 0x6F, 0x62, 0x61, 0x72]) == [0x5A, 0x6D, 0x39, 0x76, 0x59, 0x6D, 0x46, 0x79]
    ensures Encode([0xFB, 0xFF, 0xBF]) == [0x2B, 0x2F, 0x2B, 0x2F]
  {
    var bar := [0x62, 0x61, 0x72];
    assert [0x66, 0x6F, 0x6F, 0x62, 0x61, 0x72][3..] == bar && bar[3..] == [] && [0xFB, 0xFF, 0xBF][3..] == [];
    assert Encode(bar) == [0x59, 0x6D, 0x46, 0x79] + Encode([]);
  }

  /** `whole` is what remains to be found: `done`, followed by the decoding of `todo`. */
  ghost predicate Pending(whole: Option<seq<Byte>>, done: seq<Byte>, todo: seq<Byte>)
  {
    var rest := DecodeGroups(todo);
    whole == if rest.None? then None else Some(done + rest.value)
  }

  lemma PendingStart(src: seq<Byte>)
    ensures Pending(Decode(src), [], [] + Unwrap(src))
  {
    assert [] + Unwrap(src) == Unwrap(src);
    assert Decode(src).Some? ==> [] + Decode(src).value == Decode(src).value;
  }

  /** What a decoded group makes of the text that starts with it. */
  function AfterGroup(decoded: Option<(seq<Byte>, bool)>, rest: seq<Byte>): Option<seq<Byte>>
  {
    var (bytes, last) :- decoded;
    if last then (if rest == [] then Some(bytes) else None)
    else
      var tail :- DecodeGroups(rest);
      Some(bytes + tail)
  }

  lemma TakeGroup(group: seq<Byte>, rest: seq<Byte>)
    requires |group| == 4
    ensures DecodeGroups(group + rest) == AfterGroup(DecodeGroup(group), rest)
  {
    var s := group + rest;
    assert s[..4] == group && s[4..] == rest;
  }

  lemma PendingGroup(whole: Option<seq<Byte>>, done: seq<Byte>, s: seq<Byte>,
                     decoded: Option<(seq<Byte>, bool)>, rest: seq<Byte>)
    requires Pending(whole, done, s) && DecodeGroups(s) == AfterGroup(decoded, rest)
    ensures decoded.None? ==> whole.None?
    ensures decoded.Some? && decoded.value.1 ==> whole == if rest == [] then Some(done + decoded.value.0) else None
    ensures decoded.Some? && !decoded.value.1 ==> Pending(whole, done + decoded.value.0, [] + rest)
  {
    hide DecodeGroups;
    assert [] + rest == rest;
    if decoded.Some? && DecodeGroups(rest).Some? {
      var bytes, tail := decoded.value.0, DecodeGroups(rest).value;
      assert done + (bytes + tail) == (done + bytes) + tail;
    }
  }

  /** One group of symbols, judged for every continuation of the text. */
  method ReadGroup(group: seq<Byte>, ghost rest: seq<Byte>) returns (decoded: Option<(seq<Byte>, bool)>)
    requires |group| == 4
    ensures DecodeGroups(group + rest) == AfterGroup(decoded, rest)
    ensures decoded.Some? ==> |decoded.value.0| <= 3 && (!decoded.value.1 ==> |decoded.value.0| == 3)
  {
    decoded := DecodeGroup(group);
    TakeGroup(group, rest);
  }

  lemma PendingShort(whole: Option<seq<Byte>>, done: seq<Byte>, group: seq<Byte>)
    requires |group| < 4 && Pending(whole, done, group + [])
    ensures whole == if group == [] then Some(done) else None
  {
    assert group + [] == group && done + [] == done;
  }

  lemma SkipOrTake(group: seq<Byte>, src: seq<Byte>)
    requires src != []
    ensures group + Unwrap(src) ==
            (if src[0] == LF || src[0] == CR then group else group + [src[0]]) + Unwrap(src[1..])
  {
  }

  method Store(dst: array<Byte>, at: nat, bytes: seq<Byte>)
    requires at + |bytes| <= dst.Length
    modifies dst
    ensures dst[..at + |bytes|] == old(dst[..at]) + bytes
  {
    for k := 0 to |bytes|
      invariant dst[..at] == old(dst[..at]) && dst[at..at + k] == bytes[..k]
    {
      dst[at + k] := bytes[k];
    }
  }

  /** `Decode` into a caller's buffer: at most `DecodedLen` bytes are written, whatever the input. */
  method DecodeInto(dst: array<Byte>, src: seq<Byte>) returns (r: Result<nat>)
    requires dst.Length >= DecodedLen(|src|)
    modifies dst
    ensures r.Success? <==> Decode(src).Some?
    ensures r.Success? ==> r.value <= |src| / 4 * 3 && dst[..r.value] == Decode(src).value
  {
    hide DecodeGroups, DecodeGroup;
    ghost var whole := Decode(src);
    ghost var rest := Unwrap(src);
    var group: seq<Byte> := [];
    var n: nat, i: nat := 0, 0;
    PendingStart(src);
    assert dst[..0] == [] && src[0..] == src;
    while i < |src|
      invariant i <= |src| && |group| < 4
      invariant n % 3 == 0 && n / 3 * 4 + |group| <= i
      invariant rest == Unwrap(src[i..])
      invariant Pending(whole, dst[..n], group + rest)
    {
      var b := src[i];
      SkipOrTake(group, src[i..]);
      assert src[i..][1..] == src[i + 1..];
      i, rest := i + 1, Unwrap(src[i + 1..]);
      if b != LF && b != CR {
        group := group + [b];
        if |group| == 4 {
          var decoded := ReadGroup(group, rest);
          ghost var done := dst[..n];
          PendingGroup(whole, done, group + rest, decoded, rest);
          if decoded.None? {
            return Failure("illegal base64 data");
          }
          Store(dst, n, decoded.value.0);
          n := n + |decoded.value.0|;
          group := [];
          assert dst[..n] == done + decoded.value.0;
          if decoded.value.1 {
            return if Unwrap(src[i..]) == [] then Success(n) else Failure("illegal base64 data");
          }
        }
      }
    }
    PendingShort(whole, dst[..n], group);
    return if group == [] then Success(n) else Failure("illegal base64 data");
  }
}
