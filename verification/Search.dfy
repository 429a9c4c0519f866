// The standard library's substring search.
module Search {
  import opened Basics

  predicate Occurs<T(==)>(text: seq<T>, needle: seq<T>, at: nat) {
    at + |needle| <= |text| && text[at..at + |needle|] == needle
  }

  // The first occurrence at or after `from`; -1 when there is none.
  function Find<T(==)>(text: seq<T>, needle: seq<T>, from: nat): (at: int)
    ensures at >= 0 ==>
      from <= at && Occurs(text, needle, at) && forall k :: from <= k < at ==> !Occurs(text, needle, k)
    ensures at < 0 ==> at == -1 && forall k :: from <= k ==> !Occurs(text, needle, k)
    decreases |text| - from
  {
    if from > |text| then -1
    else if Occurs(text, needle, from) then from
    else Find(text, needle, from + 1)
  }

  // The first occurrence is where it is known to be.
  lemma FindIs<T>(text: seq<T>, needle: seq<T>, from: nat, at: nat)
    requires from <= at && Occurs(text, needle, at)
    requires forall k :: from <= k < at ==> !Occurs(text, needle, k)
    ensures Find(text, needle, from) == at
  {
  }

  // Both parts stand there, one after the other.
  lemma OccursParts<T>(text: seq<T>, i: nat, a: seq<T>, b: seq<T>)
    ensures Occurs(text, a + b, i) <==> Occurs(text, a, i) && Occurs(text, b, i + |a|)
  {
    if i + |a + b| <= |text| {
      var whole := text[i..i + |a + b|];
      assert whole[..|a|] == text[i..i + |a|] && whole[|a|..] == text[i + |a|..i + |a| + |b|];
      assert (a + b)[..|a|] == a && (a + b)[|a|..] == b;
      assert whole == whole[..|a|] + whole[|a|..];
    }
  }

  lemma OccursAt<T>(text: seq<T>, i: nat, needle: seq<T>, k: nat)
    requires Occurs(text, needle, i) && k < |needle|
    ensures text[i + k] == needle[k]
  {
    assert text[i..i + |needle|][k] == needle[k];
  }

  lemma OccursUnits<T>(text: seq<T>, i: nat, needle: seq<T>)
    requires Occurs(text, needle, i)
    ensures forall k :: i <= k < i + |needle| ==> text[k] == needle[k - i]
  {
    forall k | i <= k < i + |needle|
      ensures text[k] == needle[k - i]
    {
      assert text[i..i + |needle|][k - i] == text[k];
    }
  }

  // What lies inside an occurrence of `part` occurs in the text as it does in the part.
  lemma OccursWithin<T>(text: seq<T>, i: nat, part: seq<T>, k: nat, needle: seq<T>)
    requires Occurs(text, part, i) && i <= k && k + |needle| <= i + |part|
    ensures Occurs(text, needle, k) <==> Occurs(part, needle, k - i)
  {
    Slice(text, i, i + |part|, k - i, k - i + |needle|);
  }
}
