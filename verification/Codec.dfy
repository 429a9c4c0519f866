// The codec of the duplicate-code tool (tools/cleanup/cpd_patterns.cpp).
//
// Bytes and UTF-16 code units are bounded integers.  The program's shifts and masks
// work on disjoint bit fields, so they are written as multiplication, division and
// remainder by powers of two.
module Codec {
  import opened Basics

  type Byte = b: int | 0 <= b < 0x100
  type CodeUnit = u: int | 0 <= u < 0x1_0000
  type Point = p: int | 0 <= p < 0x11_0000

  const REPLACEMENT: CodeUnit := 0xFFFD

  predicate HighSurrogate(u: CodeUnit) {
    0xD800 <= u <= 0xDBFF
  }

  predicate LowSurrogate(u: CodeUnit) {
    0xDC00 <= u <= 0xDFFF
  }

  predicate StartsWithPair(u: seq<CodeUnit>) {
    |u| >= 2 && HighSurrogate(u[0]) && LowSurrogate(u[1])
  }

  function Combine(high: CodeUnit, low: CodeUnit): Point
    requires HighSurrogate(high) && LowSurrogate(low)
  {
    0x1_0000 + (high - 0xD800) * 0x400 + (low - 0xDC00)
  }

  // ---------------------------------------------------------------------------
  // Writing: one code point, then a whole unit sequence
  // ---------------------------------------------------------------------------

  function EncodePoint(p: Point): (bytes: seq<Byte>)
    ensures 1 <= |bytes| <= 4
  {
    if p < 0x80 then [p]
    else if p < 0x800 then [0xC0 + p / 0x40, 0x80 + p % 0x40]
    else if p < 0x1_0000 then [0xE0 + p / 0x1000, 0x80 + p / 0x40 % 0x40, 0x80 + p % 0x40]
    else [0xF0 + p / 0x4_0000, 0x80 + p / 0x1000 % 0x40, 0x80 + p / 0x40 % 0x40, 0x80 + p % 0x40]
  }

  // The bytes of a unit sequence; an isolated surrogate is written like any other
  // three-byte code point.
  function Utf8(u: seq<CodeUnit>): seq<Byte> {
    if u == [] then []
    else if StartsWithPair(u) then EncodePoint(Combine(u[0], u[1])) + Utf8(u[2..])
    else EncodePoint(u[0]) + Utf8(u[1..])
  }

  // The code point that starts u, and how many units spell it.
  function FirstPoint(u: seq<CodeUnit>): Point
    requires u != []
  {
    if StartsWithPair(u) then Combine(u[0], u[1]) else u[0]
  }

  function FirstLength(u: seq<CodeUnit>): (n: nat)
    requires u != []
    ensures 1 <= n <= |u|
  {
    if StartsWithPair(u) then 2 else 1
  }

  lemma Utf8Step(u: seq<CodeUnit>)
    requires u != []
    ensures Utf8(u) == EncodePoint(FirstPoint(u)) + Utf8(u[FirstLength(u)..])
  {
    hide EncodePoint, Combine;
  }

  // The k-th byte of an encoded point, counted from its end.
  lemma EncodedDigit(p: Point, scale: nat, k: nat)
    requires (k == 0 && scale == 1) || (k == 1 && scale == 0x40) || (k == 2 && scale == 0x1000)
    ensures var e := EncodePoint(p); k + 1 < |e| ==> e[|e| - 1 - k] == 0x80 + p / scale % 0x40
  {
  }

  lemma EncodedLead(p: Point)
    ensures p < 0x80 ==> EncodePoint(p) == [p]
    ensures 0x80 <= p < 0x800 ==> |EncodePoint(p)| == 2 && EncodePoint(p)[0] == 0xC0 + p / 0x40
    ensures 0x800 <= p < 0x1_0000 ==> |EncodePoint(p)| == 3 && EncodePoint(p)[0] == 0xE0 + p / 0x1000
    ensures 0x1_0000 <= p ==> |EncodePoint(p)| == 4 && EncodePoint(p)[0] == 0xF0 + p / 0x4_0000
  {
  }

  method AppendUtf8(prior: seq<Byte>, p: Point) returns (result: seq<Byte>)
    ensures result == prior + EncodePoint(p)
  {
    hide EncodePoint;
    EncodedLead(p);
    if p < 0x80 {
      return prior + [p];
    }
    ghost var e := EncodePoint(p);
    var continuation := if p < 0x800 then 1 else if p < 0x1_0000 then 2 else 3;
    var prefix := if continuation == 1 then 0xC0 else if continuation == 2 then 0xE0 else 0xF0;
    var scale: nat := if continuation == 1 then 0x40 else if continuation == 2 then 0x1000 else 0x4_0000;
    assert e[0] == prefix + p / scale;
    result := prior + [prefix + p / scale];
    ghost var left: nat := continuation;
    while scale > 1
      invariant (left == 0 && scale == 1) || (left == 1 && scale == 0x40) || (left == 2 && scale == 0x1000)
        || (left == 3 && scale == 0x4_0000)
      invariant left < |e| && result == prior + e[..|e| - left]
    {
      scale := scale / 0x40;
      left := left - 1;
      EncodedDigit(p, scale, left);
      result := result + [0x80 + p / scale % 0x40];
      assert e[..|e| - left] == e[..|e| - 1 - left] + [e[|e| - 1 - left]];
    }
    assert e[..|e| - left] == e;
  }

  lemma NothingEncoded()
    ensures Utf8([]) == []
  {
  }

  method FromUtf16(source: seq<CodeUnit>) returns (result: seq<Byte>)
    ensures result == Utf8(source)
  {
    hide EncodePoint, Combine, Utf8;
    NothingEncoded();
    result := [];
    var index := 0;
    assert source[0..] == source;
    while index < |source|
      invariant 0 <= index <= |source|
      invariant result + Utf8(source[index..]) == Utf8(source)
    {
      ghost var before, start := result, index;
      Utf8Step(source[index..]);
      var point: Point := source[index];
      if HighSurrogate(source[index]) && index + 1 < |source| && LowSurrogate(source[index + 1]) {
        index := index + 1;
        point := Combine(source[index - 1], source[index]);
      }
      result := AppendUtf8(result, point);
      index := index + 1;
      assert point == FirstPoint(source[start..]) && index == start + FirstLength(source[start..]);
      assert source[index..] == source[start..][index - start..];
      Associate(before, EncodePoint(point), Utf8(source[index..]));
    }
    assert source[index..] == [];
  }

  // ---------------------------------------------------------------------------
  // Reading: the longest acceptable tail decides one unit group
  // ---------------------------------------------------------------------------

  // How many continuation bytes a lead byte asks for; -1 for a byte that cannot lead.
  function TailWanted(lead: Byte): (n: int)
    ensures -1 <= n <= 3
  {
    if lead < 0x80 then 0
    else if 0xC2 <= lead <= 0xDF then 1
    else if 0xE0 <= lead <= 0xEF then 2
    else if 0xF0 <= lead <= 0xF4 then 3
    else -1
  }

  predicate Continuation(b: Byte) {
    0x80 <= b <= 0xBF
  }

  predicate FirstContinuation(lead: Byte, b: Byte) {
    Continuation(b) && (lead == 0xE0 ==> b >= 0xA0) && (lead == 0xF0 ==> b >= 0x90) && (lead == 0xF4 ==> b < 0x90)
  }

  // The number of continuation bytes the reader takes after s[0].
  function TailTaken(s: seq<Byte>): (n: nat)
    requires s != [] && TailWanted(s[0]) >= 0
    ensures n <= TailWanted(s[0]) && n < |s|
  {
    var wanted := TailWanted(s[0]);
    if wanted >= 1 && |s| > 1 && FirstContinuation(s[0], s[1]) then
      if wanted >= 2 && |s| > 2 && Continuation(s[2]) then
        if wanted >= 3 && |s| > 3 && Continuation(s[3]) then 3 else 2
      else 1
    else 0
  }

  function LeadBits(lead: Byte): int
    requires TailWanted(lead) >= 0
  {
    match TailWanted(lead)
    case 0 => lead
    case 1 => lead % 0x20
    case 2 => lead % 0x10
    case _ => lead % 0x08
  }

  // The value accumulated from s[0] and the first n continuation bytes.
  function Accumulated(s: seq<Byte>, n: nat): int
    requires n <= 3 && n < |s| && TailWanted(s[0]) >= 0
  {
    var a := LeadBits(s[0]);
    if n == 0 then a
    else if n == 1 then a * 0x40 + s[1] % 0x40
    else if n == 2 then (a * 0x40 + s[1] % 0x40) * 0x40 + s[2] % 0x40
    else ((a * 0x40 + s[1] % 0x40) * 0x40 + s[2] % 0x40) * 0x40 + s[3] % 0x40
  }

  function PointUnits(p: Point): (u: seq<CodeUnit>)
    ensures 1 <= |u| <= 2
  {
    if p <= 0xFFFF then [p]
    else [0xD800 + (p - 0x1_0000) / 0x400, 0xDC00 + (p - 0x1_0000) % 0x400]
  }

  datatype Group = Group(units: seq<CodeUnit>, length: nat)

  // What the reader makes of the head of s: its units and the bytes it consumed.
  function Head(s: seq<Byte>): (g: Group)
    requires s != []
    ensures 1 <= g.length <= |s|
  {
    if TailWanted(s[0]) < 0 then Group([REPLACEMENT], 1)
    else
      var n := TailTaken(s);
      if n != TailWanted(s[0]) then Group([REPLACEMENT], 1 + n)
      else
        AccumulatedIsPoint(s);
        Group(PointUnits(Accumulated(s, n)), 1 + n)
  }

  lemma AccumulatedIsPoint(s: seq<Byte>)
    requires s != [] && TailWanted(s[0]) >= 0 && TailTaken(s) == TailWanted(s[0])
    ensures 0 <= Accumulated(s, TailTaken(s)) < 0x11_0000
  {
  }

  function Utf16(s: seq<Byte>): seq<CodeUnit> {
    if s == [] then [] else Head(s).units + Utf16(s[Head(s).length..])
  }

  lemma NothingDecoded()
    ensures Utf16([]) == []
  {
  }

  method ToUtf16(source: seq<Byte>) returns (result: seq<CodeUnit>)
    ensures result == Utf16(source)
  {
    hide Utf16, Head;
    NothingDecoded();
    result := [];
    var index := 0;
    assert source[0..] == source;
    while index < |source|
      invariant 0 <= index <= |source|
      invariant result + Utf16(source[index..]) == Utf16(source)
    {
      ghost var before, s := result, source[index..];
      Utf16Step(s);
      var length, units := ReadHead(source, index);
      result := result + units;
      index := index + length;
      assert source[index..] == s[length..];
      Associate(before, units, Utf16(source[index..]));
    }
    assert source[index..] == [];
  }

  lemma Utf16Step(s: seq<Byte>)
    requires s != []
    ensures Utf16(s) == Head(s).units + Utf16(s[Head(s).length..])
  {
    hide Head;
  }

  lemma TakeOne(s: seq<Byte>, consumed: nat)
    requires s != [] && TailWanted(s[0]) >= 0
    requires consumed <= TailTaken(s) && consumed < TailWanted(s[0]) && consumed + 1 < |s|
    ensures consumed < TailTaken(s) <==>
      Continuation(s[1 + consumed]) && (consumed == 0 ==> FirstContinuation(s[0], s[1]))
    ensures consumed < TailTaken(s) ==>
      Accumulated(s, consumed + 1) == Accumulated(s, consumed) * 0x40 + s[1 + consumed] % 0x40
  {
  }

  // One round of the reader's loop.
  method ReadHead(source: seq<Byte>, start: nat) returns (length: nat, units: seq<CodeUnit>)
    requires start < |source|
    ensures Group(units, length) == Head(source[start..])
  {
    ghost var s := source[start..];
    var lead := source[start];
    var index := start + 1;
    var point: int := lead;
    var count := 0;
    if lead < 0x80 {
    } else if 0xC2 <= lead <= 0xDF {
      point := point % 0x20;
      count := 1;
    } else if 0xE0 <= lead <= 0xEF {
      point := point % 0x10;
      count := 2;
    } else if 0xF0 <= lead <= 0xF4 {
      point := point % 0x08;
      count := 3;
    } else {
      return 1, [REPLACEMENT];
    }
    var consumed := 0;
    hide Accumulated, TailTaken, PointUnits;
    assert point == Accumulated(s, 0) by {
      HeadStarts(s);
    }
    while consumed < count && index < |source|
      invariant index == start + 1 + consumed <= |source|
      invariant consumed <= TailTaken(s)
      invariant point == Accumulated(s, consumed)
    {
      var byte := source[index];
      TakeOne(s, consumed);
      if byte / 0x40 != 2
        || (consumed == 0
             && ((lead == 0xE0 && byte < 0xA0) || (lead == 0xF0 && byte < 0x90) || (lead == 0xF4 && byte >= 0x90))) {
        break;
      }
      point := point * 0x40 + byte % 0x40;
      index := index + 1;
      consumed := consumed + 1;
    }
    length := 1 + consumed;
    if consumed != count {
      return length, [REPLACEMENT];
    }
    AccumulatedIsPoint(s);
    PointUnitsOf(point);
    if point <= 0xFFFF {
      return length, [point];
    }
    point := point - 0x1_0000;
    units := [0xD800 + point / 0x400, 0xDC00 + point % 0x400];
  }

  lemma HeadStarts(s: seq<Byte>)
    requires s != [] && TailWanted(s[0]) >= 0
    ensures Accumulated(s, 0) == LeadBits(s[0])
  {
  }

  lemma PointUnitsOf(p: Point)
    ensures p <= 0xFFFF ==> PointUnits(p) == [p]
    ensures p > 0xFFFF ==> PointUnits(p) == [0xD800 + (p - 0x1_0000) / 0x400, 0xDC00 + (p - 0x1_0000) % 0x400]
  {
  }

  // ---------------------------------------------------------------------------
  // Losslessness
  // ---------------------------------------------------------------------------

  // The reader takes exactly one written code point, whatever follows it.
  lemma HeadOfEncoded(p: Point, rest: seq<Byte>)
    ensures Head(EncodePoint(p) + rest) == Group(PointUnits(p), |EncodePoint(p)|)
  {
    var e := EncodePoint(p);
    EncodedTail(p);
    TailIsLocal(e, rest);
  }

  // The reader's decision depends on the bytes it takes only.
  lemma TailIsLocal(e: seq<Byte>, rest: seq<Byte>)
    requires e != [] && TailWanted(e[0]) == |e| - 1 == TailTaken(e)
    ensures Head(e + rest) == Head(e)
  {
    hide PointUnits, LeadBits;
    var s := e + rest;
    assert forall i :: 0 <= i < |e| ==> s[i] == e[i];
    assert TailTaken(s) == |e| - 1;
    assert Accumulated(s, |e| - 1) == Accumulated(e, |e| - 1);
  }

  lemma EncodedTail(p: Point)
    ensures var e := EncodePoint(p);
      TailWanted(e[0]) == |e| - 1 == TailTaken(e) && Accumulated(e, |e| - 1) == p
  {
    var e := EncodePoint(p);
    SixBitDigits(p);
    if 0x800 <= p < 0x1_0000 {
      EncodedThree(p, e);
    } else if 0x1_0000 <= p {
      EncodedFour(p, e);
    }
  }

  // The six-bit digits of a code point spell it.
  lemma SixBitDigits(p: Point)
    ensures p == p / 0x40 * 0x40 + p % 0x40
    ensures p / 0x40 == p / 0x1000 * 0x40 + p / 0x40 % 0x40
    ensures p / 0x1000 == p / 0x4_0000 * 0x40 + p / 0x1000 % 0x40
  {
  }

  lemma EncodedThree(p: Point, e: seq<Byte>)
    requires 0x800 <= p < 0x1_0000 && e == EncodePoint(p)
    ensures TailWanted(e[0]) == |e| - 1 == TailTaken(e) && Accumulated(e, |e| - 1) == p
  {
    hide EncodePoint, TailWanted, TailTaken, Accumulated;
    var a, b, c := p / 0x1000, p / 0x40 % 0x40, p % 0x40;
    SixBitDigits(p);
    EncodedBytes(p);
    assert p == (a * 0x40 + b) * 0x40 + c;
    ThreeTaken(e, a, b, c);
  }

  lemma ThreeTaken(e: seq<Byte>, a: nat, b: nat, c: nat)
    requires a < 0x10 && b < 0x40 && c < 0x40 && a * 0x40 + b >= 0x20 && e == [0xE0 + a, 0x80 + b, 0x80 + c]
    ensures TailWanted(e[0]) == 2 && TailTaken(e) == 2 && Accumulated(e, 2) == (a * 0x40 + b) * 0x40 + c
  {
    assert e[0] % 0x10 == a && e[1] % 0x40 == b && e[2] % 0x40 == c;
  }

  lemma EncodedFour(p: Point, e: seq<Byte>)
    requires 0x1_0000 <= p && e == EncodePoint(p)
    ensures TailWanted(e[0]) == |e| - 1 == TailTaken(e) && Accumulated(e, |e| - 1) == p
  {
    hide EncodePoint, TailWanted, TailTaken, Accumulated;
    var a, b, c, d := p / 0x4_0000, p / 0x1000 % 0x40, p / 0x40 % 0x40, p % 0x40;
    SixBitDigits(p);
    EncodedBytes(p);
    assert p == ((a * 0x40 + b) * 0x40 + c) * 0x40 + d;
    FourTaken(e, a, b, c, d);
  }

  lemma FourTaken(e: seq<Byte>, a: nat, b: nat, c: nat, d: nat)
    requires 0x10 <= a * 0x40 + b < 0x110 && b < 0x40 && c < 0x40 && d < 0x40
      && e == [0xF0 + a, 0x80 + b, 0x80 + c, 0x80 + d]
    ensures TailWanted(e[0]) == 3 && TailTaken(e) == 3 && Accumulated(e, 3) == ((a * 0x40 + b) * 0x40 + c) * 0x40 + d
  {
    assert e[0] % 0x8 == a && e[1] % 0x40 == b && e[2] % 0x40 == c && e[3] % 0x40 == d;
  }

  lemma Utf16OfEncoded(p: Point, rest: seq<Byte>)
    ensures Utf16(EncodePoint(p) + rest) == PointUnits(p) + Utf16(rest)
  {
    hide EncodePoint, PointUnits, Head;
    HeadOfEncoded(p, rest);
    assert (EncodePoint(p) + rest)[|EncodePoint(p)|..] == rest;
  }

  lemma UnitsOfFirst(u: seq<CodeUnit>)
    requires u != []
    ensures PointUnits(FirstPoint(u)) == u[..FirstLength(u)]
  {
  }

  // Reading back a written sequence gives its units, isolated surrogates included,
  // and then whatever the following bytes say.
  lemma {:induction false} ReadsBack(u: seq<CodeUnit>, rest: seq<Byte>)
    ensures Utf16(Utf8(u) + rest) == u + Utf16(rest)
  {
    if u == [] {
      assert Utf8(u) + rest == rest;
    } else {
      hide *;
      var n, p := FirstLength(u), FirstPoint(u);
      Utf8Step(u);
      Utf16OfEncoded(p, Utf8(u[n..]) + rest);
      ReadsBack(u[n..], rest);
      UnitsOfFirst(u);
      Associate(EncodePoint(p), Utf8(u[n..]), rest);
      Associate(u[..n], u[n..], Utf16(rest));
      assert u[..n] + u[n..] == u;
    }
  }

  lemma RoundTripUnits(u: seq<CodeUnit>)
    ensures Utf16(Utf8(u)) == u
  {
    ReadsBack(u, []);
    assert Utf8(u) + [] == Utf8(u);
    assert u + Utf16([]) == u;
  }

  // ---------------------------------------------------------------------------
  // Which byte strings survive: RFC 3629 section 4, widened to surrogates
  // ---------------------------------------------------------------------------

  // The length of the RFC 3629 section 4 character that starts s, or 0.  With
  // `surrogates`, the three-byte forms ED A0..BF xx are characters too.
  function CharLength(s: seq<Byte>, surrogates: bool): (n: nat)
    ensures n <= 4 && n <= |s|
  {
    if |s| >= 1 && s[0] <= 0x7F then 1
    else if |s| >= 2 && 0xC2 <= s[0] <= 0xDF && Continuation(s[1]) then 2
    else if |s| >= 3 && Continuation(s[2]) &&
            (|| (s[0] == 0xE0 && 0xA0 <= s[1] <= 0xBF)
             || (0xE1 <= s[0] <= 0xEC && Continuation(s[1]))
             || (s[0] == 0xED && 0x80 <= s[1] <= (if surrogates then 0xBF else 0x9F))
             || (0xEE <= s[0] <= 0xEF && Continuation(s[1]))) then 3
    else if |s| >= 4 && Continuation(s[2]) && Continuation(s[3]) &&
            (|| (s[0] == 0xF0 && 0x90 <= s[1] <= 0xBF)
             || (0xF1 <= s[0] <= 0xF3 && Continuation(s[1]))
             || (s[0] == 0xF4 && 0x80 <= s[1] <= 0x8F)) then 4
    else 0
  }

  // A byte string of RFC 3629 section 4.
  predicate ValidUtf8(s: seq<Byte>) {
    s == [] || (CharLength(s, false) > 0 && ValidUtf8(s[CharLength(s, false)..]))
  }

  predicate StartsHigh(s: seq<Byte>) {
    |s| >= 3 && s[0] == 0xED && 0xA0 <= s[1] <= 0xAF && Continuation(s[2])
  }

  predicate StartsLow(s: seq<Byte>) {
    |s| >= 3 && s[0] == 0xED && 0xB0 <= s[1] <= 0xBF && Continuation(s[2])
  }

  // The same with encoded surrogates, except that a high one is never followed by a
  // low one: that pair has the four-byte form.
  predicate ValidWtf8(s: seq<Byte>) {
    s == [] ||
    var n := CharLength(s, true);
    n > 0 && !(StartsHigh(s) && StartsLow(s[n..])) && ValidWtf8(s[n..])
  }

  predicate Paired(u: seq<CodeUnit>) {
    u == [] ||
    if StartsWithPair(u) then Paired(u[2..])
    else !HighSurrogate(u[0]) && !LowSurrogate(u[0]) && Paired(u[1..])
  }

  lemma CharOfEncoded(p: Point, rest: seq<Byte>)
    ensures CharLength(EncodePoint(p) + rest, true) == |EncodePoint(p)|
    ensures StartsHigh(EncodePoint(p) + rest) <==> 0xD800 <= p <= 0xDBFF
    ensures StartsLow(EncodePoint(p) + rest) <==> 0xDC00 <= p <= 0xDFFF
    ensures CharLength(EncodePoint(p) + rest, false) == if 0xD800 <= p <= 0xDFFF then 0 else |EncodePoint(p)|
  {
    if p < 0x800 {
    } else if p < 0x1_0000 {
      EncodedBytes(p);
      hide EncodePoint;
      CharOfThree(p, p / 0x1000, p / 0x40 % 0x40, p % 0x40, rest);
    } else {
      EncodedBytes(p);
      hide EncodePoint;
      CharOfFour(p, p / 0x4_0000, p / 0x1000 % 0x40, p / 0x40 % 0x40, p % 0x40, rest);
    }
  }

  lemma CharOfThree(p: Point, a: int, b: int, c: int, rest: seq<Byte>)
    requires 0x800 <= p < 0x1_0000 && a == p / 0x1000 && b == p / 0x40 % 0x40 && c == p % 0x40
    ensures a < 0x10
    ensures var s := [0xE0 + a, 0x80 + b, 0x80 + c] + rest;
      && CharLength(s, true) == 3
      && (StartsHigh(s) <==> 0xD800 <= p <= 0xDBFF)
      && (StartsLow(s) <==> 0xDC00 <= p <= 0xDFFF)
      && CharLength(s, false) == if 0xD800 <= p <= 0xDFFF then 0 else 3
  {
    SixBitDigits(p);
    assert p == a * 0x1000 + b * 0x40 + c;
  }

  lemma CharOfFour(p: Point, a: int, b: int, c: int, d: int, rest: seq<Byte>)
    requires 0x1_0000 <= p && a == p / 0x4_0000 && b == p / 0x1000 % 0x40 && c == p / 0x40 % 0x40 && d == p % 0x40
    ensures a < 0x10
    ensures var s := [0xF0 + a, 0x80 + b, 0x80 + c, 0x80 + d] + rest;
      CharLength(s, true) == CharLength(s, false) == 4 && !StartsHigh(s) && !StartsLow(s)
  {
    SixBitDigits(p);
    assert p == a * 0x4_0000 + b * 0x1000 + c * 0x40 + d;
  }

  lemma Utf8StartsLow(u: seq<CodeUnit>)
    ensures StartsLow(Utf8(u)) <==> u != [] && LowSurrogate(u[0])
  {
    if u != [] {
      Utf8Step(u);
      CharOfEncoded(FirstPoint(u), Utf8(u[FirstLength(u)..]));
    }
  }

  // Everything the writer produces is WTF-8, and it is RFC 3629 UTF-8 exactly when
  // every surrogate is paired.
  lemma {:induction false} WriterOutput(u: seq<CodeUnit>)
    ensures ValidWtf8(Utf8(u))
    ensures ValidUtf8(Utf8(u)) <==> Paired(u)
  {
    if u != [] {
      hide EncodePoint, Utf8, CharLength;
      var n, p := FirstLength(u), FirstPoint(u);
      var rest := Utf8(u[n..]);
      Utf8Step(u);
      CharOfEncoded(p, rest);
      assert Utf8(u)[|EncodePoint(p)|..] == rest;
      Utf8StartsLow(u[n..]);
      WriterOutput(u[n..]);
    }
  }

  // A character is what the writer makes of the code point it spells.
  lemma CharIsEncoded(s: seq<Byte>) returns (p: Point)
    requires CharLength(s, true) > 0
    ensures s[..CharLength(s, true)] == EncodePoint(p)
    ensures Head(s) == Group(PointUnits(p), CharLength(s, true))
  {
    hide PointUnits;
    var n := CharLength(s, true);
    assert TailWanted(s[0]) == n - 1 == TailTaken(s);
    p := AccumulatedIsEncoded(s);
  }

  lemma AccumulatedIsEncoded(s: seq<Byte>) returns (p: Point)
    requires CharLength(s, true) > 0
    ensures Accumulated(s, CharLength(s, true) - 1) == p
    ensures s[..CharLength(s, true)] == EncodePoint(p)
  {
    hide TailTaken;
    var n := CharLength(s, true);
    p := Accumulated(s, n - 1);
    if n == 3 {
      DecodedThree(s, p);
    } else if n == 4 {
      DecodedFour(s, p);
    }
  }

  lemma DecodedThree(s: seq<Byte>, p: Point)
    requires CharLength(s, true) == 3 && p == Accumulated(s, 2)
    ensures s[..3] == EncodePoint(p)
  {
    hide CharLength, EncodePoint, Accumulated;
    var a, b, c := ThreeDigits(s);
    FourDigits(0, a, b, c, p);
    EncodedBytes(p);
    assert s[..3] == [s[0], s[1], s[2]];
  }

  lemma ThreeDigits(s: seq<Byte>) returns (a: int, b: int, c: int)
    requires CharLength(s, true) == 3
    ensures |s| >= 3 && s[0] == 0xE0 + a && s[1] == 0x80 + b && s[2] == 0x80 + c
    ensures 0 <= a < 0x10 && 0 <= b < 0x40 && 0 <= c < 0x40 && a * 0x40 + b >= 0x20
    ensures TailWanted(s[0]) == 2 && Accumulated(s, 2) == (a * 0x40 + b) * 0x40 + c
  {
    a, b, c := s[0] as int - 0xE0, s[1] as int - 0x80, s[2] as int - 0x80;
    assert 0 <= a < 0x10 && 0 <= b < 0x40 && 0 <= c < 0x40 && a * 0x40 + b >= 0x20;
    hide CharLength;
    ThreeTaken([s[0], s[1], s[2]], a, b, c);
    assert Accumulated(s, 2) == Accumulated([s[0], s[1], s[2]], 2);
  }

  lemma DecodedFour(s: seq<Byte>, p: Point)
    requires CharLength(s, true) == 4 && p == Accumulated(s, 3)
    ensures s[..4] == EncodePoint(p)
  {
    hide CharLength, EncodePoint, Accumulated;
    var a, b, c, d := FourDigitsOf(s);
    FourDigits(a, b, c, d, p);
    EncodedBytes(p);
    assert s[..4] == [s[0], s[1], s[2], s[3]];
  }

  lemma FourDigitsOf(s: seq<Byte>) returns (a: int, b: int, c: int, d: int)
    requires CharLength(s, true) == 4
    ensures |s| >= 4 && s[0] == 0xF0 + a && s[1] == 0x80 + b && s[2] == 0x80 + c && s[3] == 0x80 + d
    ensures 0 <= a < 8 && 0 <= b < 0x40 && 0 <= c < 0x40 && 0 <= d < 0x40 && 0x10 <= a * 0x40 + b < 0x110
    ensures TailWanted(s[0]) == 3 && Accumulated(s, 3) == ((a * 0x40 + b) * 0x40 + c) * 0x40 + d
  {
    a, b, c, d := s[0] as int - 0xF0, s[1] as int - 0x80, s[2] as int - 0x80, s[3] as int - 0x80;
    assert 0 <= a < 8 && 0 <= b < 0x40 && 0 <= c < 0x40 && 0 <= d < 0x40 && 0x10 <= a * 0x40 + b < 0x110;
    hide CharLength;
    FourTaken([s[0], s[1], s[2], s[3]], a, b, c, d);
    assert Accumulated(s, 3) == Accumulated([s[0], s[1], s[2], s[3]], 3);
  }

  lemma EncodedBytes(p: Point)
    ensures 0x800 <= p < 0x1_0000 ==> EncodePoint(p) == [0xE0 + p / 0x1000, 0x80 + p / 0x40 % 0x40, 0x80 + p % 0x40]
    ensures p >= 0x1_0000 ==>
      EncodePoint(p) == [0xF0 + p / 0x4_0000, 0x80 + p / 0x1000 % 0x40, 0x80 + p / 0x40 % 0x40, 0x80 + p % 0x40]
  {
  }

  lemma FourDigits(a: int, b: int, c: int, d: int, p: int)
    requires 0 <= a && 0 <= b < 0x40 && 0 <= c < 0x40 && 0 <= d < 0x40
    requires p == ((a * 0x40 + b) * 0x40 + c) * 0x40 + d
    ensures p / 0x4_0000 == a && p / 0x1000 % 0x40 == b && p / 0x40 % 0x40 == c && p % 0x40 == d
  {
    assert p / 0x40 == (a * 0x40 + b) * 0x40 + c;
    assert p / 0x1000 == a * 0x40 + b;
  }

  lemma {:induction false} Wtf8Survives(s: seq<Byte>)
    requires ValidWtf8(s)
    ensures Utf8(Utf16(s)) == s
    ensures StartsLow(s) <==> Utf16(s) != [] && LowSurrogate(Utf16(s)[0])
  {
    if s != [] {
      hide EncodePoint, PointUnits, Utf8, Head, CharLength, StartsHigh, StartsLow;
      var n := CharLength(s, true);
      var p := CharIsEncoded(s);
      var tail := s[n..];
      assert s == EncodePoint(p) + tail;
      CharOfEncoded(p, tail);
      Wtf8Survives(tail);
      var u := Utf16(s);
      assert u == PointUnits(p) + Utf16(tail);
      FirstOfRead(p, Utf16(tail));
      Utf8Step(u);
      assert u[FirstLength(u)..] == Utf16(tail);
    }
  }

  lemma FirstOfRead(p: Point, rest: seq<CodeUnit>)
    requires !(0xD800 <= p <= 0xDBFF && rest != [] && LowSurrogate(rest[0]))
    ensures var u := PointUnits(p) + rest;
      FirstPoint(u) == p && FirstLength(u) == |PointUnits(p)| && (LowSurrogate(u[0]) <==> 0xDC00 <= p <= 0xDFFF)
  {
  }

  // The bytes that survive reading and writing are exactly the WTF-8 strings.
  lemma RoundTripBytes(s: seq<Byte>)
    ensures Utf8(Utf16(s)) == s <==> ValidWtf8(s)
  {
    if ValidWtf8(s) {
      Wtf8Survives(s);
    }
    WriterOutput(Utf16(s));
  }

  // A byte that cannot lead is replaced.
  lemma InvalidByteIsLost()
    ensures Utf16([0xFF]) == [REPLACEMENT] && Utf8(Utf16([0xFF])) == [0xEF, 0xBF, 0xBD]
  {
    var s: seq<Byte> := [0xFF];
    assert Utf16(s[1..]) == [];
    assert FirstPoint([REPLACEMENT]) == REPLACEMENT && [REPLACEMENT][1..] == [];
    assert EncodePoint(REPLACEMENT) == [0xEF, 0xBF, 0xBD];
  }

  lemma {:induction false} Utf8IsWtf8(s: seq<Byte>)
    requires ValidUtf8(s)
    ensures ValidWtf8(s)
  {
    if s != [] {
      assert CharLength(s, true) == CharLength(s, false);
      assert !StartsHigh(s);
      Utf8IsWtf8(s[CharLength(s, false)..]);
    }
  }

  // The promise for ordinary source text.
  lemma RoundTripUtf8(s: seq<Byte>)
    requires ValidUtf8(s)
    ensures Utf8(Utf16(s)) == s && Paired(Utf16(s))
  {
    Utf8IsWtf8(s);
    RoundTripBytes(s);
    WriterOutput(Utf16(s));
  }

  // ---------------------------------------------------------------------------
  // Cutting and joining text
  // ---------------------------------------------------------------------------

  // A cut between a and b splits a surrogate pair.
  predicate SplitsPair(a: seq<CodeUnit>, b: seq<CodeUnit>) {
    a != [] && b != [] && HighSurrogate(a[|a| - 1]) && LowSurrogate(b[0])
  }

  // The writer treats two pieces separately, unless the cut splits a pair: then the
  // six bytes of the two halves become the four bytes of the pair.
  lemma {:induction false} Utf8Joins(a: seq<CodeUnit>, b: seq<CodeUnit>)
    ensures !SplitsPair(a, b) ==> Utf8(a + b) == Utf8(a) + Utf8(b)
    ensures SplitsPair(a, b) ==> |Utf8(a + b)| == |Utf8(a)| + |Utf8(b)| - 2
    decreases |a|
  {
    if a == [] {
      assert a + b == b;
    } else {
      hide EncodePoint, Utf8, Combine;
      if StartsWithPair(a + b) && !StartsWithPair(a) {
        Utf8Joined(a, b);
      } else {
        SplitsLater(a, b);
        hide *;
        var n, p := FirstLength(a), FirstPoint(a);
        Utf8Step(a);
        Utf8Step(a + b);
        Utf8Joins(a[n..], b);
        Associate(EncodePoint(p), Utf8(a[n..]), Utf8(b));
      }
    }
  }

  lemma LowIsNotHigh(u: seq<CodeUnit>)
    ensures forall i :: 0 <= i < |u| && LowSurrogate(u[i]) ==> !HighSurrogate(u[i])
  {
  }

  lemma SplitsLater(a: seq<CodeUnit>, b: seq<CodeUnit>)
    requires a != [] && (StartsWithPair(a + b) ==> StartsWithPair(a))
    ensures FirstLength(a + b) == FirstLength(a) && FirstPoint(a + b) == FirstPoint(a)
    ensures (a + b)[FirstLength(a)..] == a[FirstLength(a)..] + b
    ensures SplitsPair(a[FirstLength(a)..], b) <==> SplitsPair(a, b)
  {
    hide Combine, HighSurrogate, LowSurrogate;
    LowIsNotHigh(a);
    var n := FirstLength(a);
    assert n < |a| ==> a[n..][|a| - n - 1] == a[|a| - 1];
    assert StartsWithPair(a) ==> StartsWithPair(a + b);
  }

  lemma Utf8Joined(a: seq<CodeUnit>, b: seq<CodeUnit>)
    requires a != [] && StartsWithPair(a + b) && !StartsWithPair(a)
    ensures SplitsPair(a, b) && |Utf8(a + b)| == |Utf8(a)| + |Utf8(b)| - 2
  {
    hide EncodePoint, Combine;
    assert |a| == 1;
    assert (a + b)[2..] == b[1..] && a[1..] == [];
    EncodedLengths(a[0], b[0]);
  }

  lemma EncodedLengths(high: CodeUnit, low: CodeUnit)
    requires HighSurrogate(high) && LowSurrogate(low)
    ensures |EncodePoint(high)| == |EncodePoint(low)| == 3 && |EncodePoint(Combine(high, low))| == 4
    ensures Utf8([]) == []
  {
  }

  lemma Utf8JoinsExactly(a: seq<CodeUnit>, b: seq<CodeUnit>)
    ensures Utf8(a + b) == Utf8(a) + Utf8(b) <==> !SplitsPair(a, b)
  {
    Utf8Joins(a, b);
  }
}
