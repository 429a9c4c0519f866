// What the reader of the codec makes of any bytes, told by the writer alone: the longest start
// of a written code point (tools/cleanup/cpd_patterns.cpp toUtf16).
module Decoding {
  import opened Codec

  // The first n bytes are the start of the bytes of some code point.
  ghost predicate StartsPoint(s: seq<Byte>, n: nat) {
    n <= |s| && exists p: Point :: n <= |EncodePoint(p)| && s[..n] == EncodePoint(p)[..n]
  }

  ghost predicate Longest(s: seq<Byte>, n: nat) {
    StartsPoint(s, n) && !StartsPoint(s, n + 1)
  }

  // A written code point is read as its units; otherwise one replacement character stands for
  // the longest start of one, or for a single byte when no code point starts with it.
  ghost predicate Reads(s: seq<Byte>, g: Group)
    requires s != []
  {
    if exists p: Point :: EncodePoint(p) <= s
    then exists p: Point :: EncodePoint(p) <= s && g == Group(PointUnits(p), |EncodePoint(p)|)
    else
      && g.units == [REPLACEMENT] && 1 <= g.length
      && if StartsPoint(s, 1) then Longest(s, g.length) else g.length == 1
  }

  // --- the reader's own test ---

  lemma TakenOfPrefix(s: seq<Byte>, e: seq<Byte>, n: nat)
    requires 1 <= n <= |s| && n <= |e| && s[..n] == e[..n]
    requires TailWanted(e[0]) == |e| - 1 == TailTaken(e)
    ensures TailWanted(s[0]) == |e| - 1 && n <= 1 + TailTaken(s)
  {
    assert forall i :: 0 <= i < n ==> s[i] == s[..n][i] && e[i] == e[..n][i];
  }

  // Bytes that complete a lead and its first n - 1 continuations.
  function Filler(lead: Byte, k: nat): Byte {
    if k == 1 && lead == 0xE0 then 0xA0 else if k == 1 && lead == 0xF0 then 0x90 else 0x80
  }

  lemma PrefixOfTaken(s: seq<Byte>, n: nat)
    requires 1 <= n <= |s| && TailWanted(s[0]) >= 0 && n <= 1 + TailTaken(s)
    ensures StartsPoint(s, n)
  {
    var lead := s[0];
    var full := 1 + TailWanted(lead);
    var e := seq(full, k requires 0 <= k < full => if k < n then s[k] else Filler(lead, k));
    assert CharLength(e, true) == full;
    var p := AccumulatedIsEncoded(e);
    assert e[..full] == e;
    assert e[..n] == s[..n];
  }

  lemma StartsIs(s: seq<Byte>, n: nat)
    requires s != [] && 1 <= n
    ensures StartsPoint(s, n) <==> TailWanted(s[0]) >= 0 && n <= 1 + TailTaken(s)
  {
    hide EncodePoint, TailTaken, TailWanted;
    if n <= |s| {
      forall p: Point | n <= |EncodePoint(p)| && s[..n] == EncodePoint(p)[..n]
        ensures TailWanted(s[0]) >= 0 && n <= 1 + TailTaken(s)
      {
        EncodedTail(p);
        TakenOfPrefix(s, EncodePoint(p), n);
      }
      if TailWanted(s[0]) >= 0 && n <= 1 + TailTaken(s) {
        PrefixOfTaken(s, n);
      }
    }
  }

  // The bytes that are all taken are those of a code point.
  lemma WholePoint(s: seq<Byte>)
    requires s != [] && TailWanted(s[0]) >= 0 && TailTaken(s) == TailWanted(s[0])
    ensures exists p: Point :: EncodePoint(p) <= s
  {
    hide EncodePoint, TailTaken, TailWanted;
    var n := 1 + TailTaken(s);
    StartsIs(s, n);
    var p: Point :| n <= |EncodePoint(p)| && s[..n] == EncodePoint(p)[..n];
    EncodedTail(p);
    TakenOfPrefix(s, EncodePoint(p), n);
    assert EncodePoint(p) == s[..n];
  }

  lemma WrittenIsRead(s: seq<Byte>, p: Point)
    requires EncodePoint(p) <= s
    ensures Head(s) == Group(PointUnits(p), |EncodePoint(p)|)
  {
    hide EncodePoint, PointUnits;
    assert s == EncodePoint(p) + s[|EncodePoint(p)|..];
    HeadOfEncoded(p, s[|EncodePoint(p)|..]);
  }

  // One round of the reader, for every byte string.
  lemma HeadIs(s: seq<Byte>, g: Group)
    requires s != []
    ensures Head(s) == g <==> Reads(s, g)
  {
    hide EncodePoint, PointUnits, TailTaken, TailWanted, StartsPoint;
    forall p: Point | EncodePoint(p) <= s
      ensures Head(s) == Group(PointUnits(p), |EncodePoint(p)|)
    {
      WrittenIsRead(s, p);
    }
    forall n: nat | 1 <= n
      ensures StartsPoint(s, n) <==> TailWanted(s[0]) >= 0 && n <= 1 + TailTaken(s)
    {
      StartsIs(s, n);
    }
    if TailWanted(s[0]) >= 0 && TailTaken(s) == TailWanted(s[0]) {
      WholePoint(s);
    }
  }

  // The whole string, round by round.
  ghost predicate AllRead(s: seq<Byte>, units: seq<CodeUnit>)
    decreases |s|
  {
    if s == [] then units == []
    else exists g: Group :: Reads(s, g) && 1 <= g.length <= |s| && g.units <= units
           && AllRead(s[g.length..], units[|g.units|..])
  }

  lemma {:induction false} DecodedIsRead(s: seq<Byte>, units: seq<CodeUnit>)
    ensures Utf16(s) == units <==> AllRead(s, units)
    decreases |s|
  {
    hide Reads, Head;
    if s != [] {
      var g := Head(s);
      HeadIs(s, g);
      if Utf16(s) == units {
        DecodedIsRead(s[g.length..], units[|g.units|..]);
        assert units[|g.units|..] == Utf16(s[g.length..]);
      }
      forall other: Group | Reads(s, other) && 1 <= other.length <= |s| && other.units <= units
        && AllRead(s[other.length..], units[|other.units|..])
        ensures Utf16(s) == units
      {
        HeadIs(s, other);
        DecodedIsRead(s[other.length..], units[|other.units|..]);
      }
    }
  }
}
