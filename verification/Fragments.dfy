// Collapsing the code fragments of a duplicate report
// (tools/cleanup/generate_cleanup_json.cpp).  A character stands for a byte.
module Fragments {
  import opened Search

  const OPEN := "<codefragment>"
  const CLOSE := "</codefragment>"
  const PLACEHOLDER := "<codefragment/>"
  const CDATA := "<![CDATA["
  const CDATA_END := "]]>"

  function Lower(c: char): char {
    if 'A' <= c <= 'Z' then c + 32 as char else c
  }

  function Lowered(s: string): (r: string)
    ensures |r| == |s|
  {
    seq(|s|, i requires 0 <= i < |s| => Lower(s[i]))
  }

  predicate Digits(s: string, hexadecimal: bool) {
    s != [] && forall i :: 0 <= i < |s| ==> '0' <= s[i] <= '9' || (hexadecimal && 'a' <= s[i] <= 'f')
  }

  // A predefined entity or a character reference, in any case.
  predicate EntityName(name: string) {
    var n := Lowered(name);
    || n == "lt" || n == "gt" || n == "amp" || n == "quot" || n == "apos"
    || (Occurs(n, "#", 0) && if Occurs(n, "#x", 0) then Digits(n[2..], true) else Digits(n[1..], false))
  }

  // The position after the entity whose ampersand stands at `start`; -1 when it is none.
  function EntityEnd(text: string, start: nat): (end: int)
    requires start < |text|
    ensures end == -1 || start < end <= |text|
  {
    var end := Find(text, ";", start + 1);
    if end < 0 || !EntityName(text[start + 1..end]) then -1 else end + 1
  }

  // The position after the closing tag when the text from `cursor` on completes a
  // fragment; -1 when it does not.
  function FragmentEnd(body: string, cursor: nat): (end: int)
    ensures end == -1 || cursor < end <= |body|
    decreases |body| - cursor
  {
    if cursor >= |body| then -1
    else if Occurs(body, CLOSE, cursor) then cursor + |CLOSE|
    else if Occurs(body, CDATA, cursor) then
      var close := Find(body, CDATA_END, cursor + 9);
      if close < 0 then -1 else FragmentEnd(body, close + 3)
    else if body[cursor] == '<' then -1
    else if body[cursor] == '&' then
      var end := EntityEnd(body, cursor);
      if end < 0 then -1 else FragmentEnd(body, end)
    else FragmentEnd(body, cursor + 1)
  }

  // The output from the point where body[..copied] is done and `search` is next.
  function CollapsedFrom(body: string, copied: nat, search: nat): string
    requires copied <= search <= |body|
    decreases |body| - search
  {
    var start := Find(body, OPEN, search);
    if start < 0 then body[copied..]
    else
      var end := FragmentEnd(body, start + |OPEN|);
      if end >= 0 then body[copied..start] + PLACEHOLDER + CollapsedFrom(body, end, end)
      else CollapsedFrom(body, copied, start + 1)
  }

  method FragmentPlaceholders(body: string) returns (result: string)
    ensures result == CollapsedFrom(body, 0, 0)
  {
    hide FragmentEnd;
    result := "";
    var copied, search := 0, 0;
    while true
      invariant 0 <= copied <= search <= |body|
      invariant CollapsedFrom(body, 0, 0) == result + CollapsedFrom(body, copied, search)
      decreases |body| - search
    {
      var start := Find(body, OPEN, search);
      if start < 0 {
        break;
      }
      var cursor := FragmentScan(body, start + |OPEN|);
      if cursor >= 0 {
        Appended(result, body[copied..start], PLACEHOLDER, CollapsedFrom(body, cursor, cursor));
        result := result + body[copied..start];
        result := result + PLACEHOLDER;
        copied := cursor;
        search := cursor;
      } else {
        search := start + 1;
      }
    }
    result := result + body[copied..];
  }

  lemma Appended(a: string, b: string, c: string, rest: string)
    ensures a + (b + c + rest) == a + b + c + rest
  {
  }

  method FragmentScan(body: string, start: nat) returns (end: int)
    ensures end == FragmentEnd(body, start)
  {
    var cursor := start;
    while cursor < |body|
      invariant start <= cursor
      invariant FragmentEnd(body, start) == FragmentEnd(body, cursor)
      decreases |body| - cursor
    {
      if Occurs(body, CLOSE, cursor) {
        return cursor + |CLOSE|;
      }
      if Occurs(body, CDATA, cursor) {
        var close := Find(body, CDATA_END, cursor + 9);
        if close < 0 {
          return -1;
        }
        cursor := close + 3;
      } else if body[cursor] == '<' {
        return -1;
      } else if body[cursor] == '&' {
        var entity := EntityEnd(body, cursor);
        if entity < 0 {
          return -1;
        }
        cursor := entity;
      } else {
        cursor := cursor + 1;
      }
    }
    end := -1;
  }

  // ---------------------------------------------------------------------------
  // For every body: which spans are collapsed
  // ---------------------------------------------------------------------------

  datatype Span = Span(start: nat, end: nat)

  // A complete fragment starts at k.
  predicate Complete(body: string, k: nat) {
    Occurs(body, OPEN, k) && FragmentEnd(body, k + |OPEN|) >= 0
  }

  // The spans are the complete fragments from `lo` on, each the first one after the one
  // before it.
  ghost predicate Fragmented(body: string, spans: seq<Span>, lo: nat)
    decreases |spans|
  {
    if spans == [] then forall k: nat :: lo <= k ==> !Complete(body, k)
    else
      && lo <= spans[0].start && Complete(body, spans[0].start)
      && FragmentEnd(body, spans[0].start + |OPEN|) == spans[0].end
      && (forall k: nat :: lo <= k < spans[0].start ==> !Complete(body, k))
      && Fragmented(body, spans[1..], spans[0].end)
  }

  // The text from `copied` on with every span replaced by a placeholder.
  function Replaced(body: string, spans: seq<Span>, copied: nat): string
    requires copied <= |body| && forall s :: s in spans ==> s.end <= |body|
    decreases |spans|
  {
    if spans == [] then body[copied..]
    else
      assert spans[0] in spans;
      (if copied <= spans[0].start <= |body| then body[copied..spans[0].start] else []) + PLACEHOLDER
        + Replaced(body, spans[1..], spans[0].end)
  }

  // Exactly the complete fragments are collapsed, from left to right.
  lemma {:induction false} CollapsesComplete(body: string, copied: nat, search: nat) returns (spans: seq<Span>)
    requires copied <= search <= |body|
    ensures Fragmented(body, spans, search)
    ensures forall s :: s in spans ==> s.end <= |body|
    ensures CollapsedFrom(body, copied, search) == Replaced(body, spans, copied)
    decreases |body| - search
  {
    hide FragmentEnd;
    var start := Find(body, OPEN, search);
    if start < 0 {
      spans := [];
    } else {
      var end := FragmentEnd(body, start + |OPEN|);
      if end >= 0 {
        var rest := CollapsesComplete(body, end, end);
        spans := [Span(start, end)] + rest;
        assert spans[1..] == rest;
      } else {
        spans := CollapsesComplete(body, copied, start + 1);
        ExtendLeft(body, spans, search, start);
      }
    }
  }

  lemma ExtendLeft(body: string, spans: seq<Span>, lo: nat, start: nat)
    requires Fragmented(body, spans, start + 1) && !Complete(body, start) && lo <= start
    requires forall k: nat :: lo <= k < start ==> !Occurs(body, OPEN, k)
    ensures Fragmented(body, spans, lo)
  {
    hide FragmentEnd;
  }

  // ---------------------------------------------------------------------------
  // Reports: markup pieces and complete fragments
  // ---------------------------------------------------------------------------

  datatype Item = CData(payload: string) | Entity(name: string) | Plain(c: char)

  function ItemText(item: Item): string {
    match item
    case CData(payload) => CDATA + payload + CDATA_END
    case Entity(name) => "&" + name + ";"
    case Plain(c) => [c]
  }

  function Items(items: seq<Item>): string {
    if items == [] then "" else ItemText(items[0]) + Items(items[1..])
  }

  // A payload ends at its first ]]> (XML 1.0, section 2.7); what surrounds it is text.
  predicate Proper(item: Item) {
    match item
    case CData(payload) => forall k :: 0 <= k <= |payload| ==> !Occurs(payload, CDATA_END, k)
    case Entity(name) => EntityName(name) && ';' !in name
    case Plain(c) => c != '<' && c != '&'
  }

  function Fragment(items: seq<Item>): string {
    OPEN + Items(items) + CLOSE
  }

  // The pieces with a fragment between each two of them.
  function Report(pieces: seq<string>, fragments: seq<seq<Item>>): string
    requires |pieces| == |fragments| + 1
  {
    if fragments == [] then pieces[0] else pieces[0] + Fragment(fragments[0]) + Report(pieces[1..], fragments[1..])
  }

  function Joined(pieces: seq<string>): string
    requires pieces != []
  {
    if |pieces| == 1 then pieces[0] else pieces[0] + PLACEHOLDER + Joined(pieces[1..])
  }

  predicate Markup(piece: string) {
    forall k :: 0 <= k <= |piece| ==> !Occurs(piece, OPEN, k)
  }

  // A payload's end marker is the first one after its start.
  lemma PayloadEnds(body: string, at: nat, payload: string)
    requires Proper(CData(payload)) && Occurs(body, payload + CDATA_END, at)
    ensures Find(body, CDATA_END, at) == at + |payload|
  {
    OccursParts(body, at, payload, CDATA_END);
    var end := at + |payload|;
    OccursUnits(body, at, payload);
    EndMarker(body, end);
    forall k | at <= k < end
      ensures !Occurs(body, CDATA_END, k)
    {
      EndMarker(body, k);
      if k + 3 <= end {
        EndMarker(payload, k - at);
      }
    }
    FindIs(body, CDATA_END, at, end);
  }

  lemma EndMarker(text: string, k: nat)
    ensures Occurs(text, CDATA_END, k) <==>
      k + 3 <= |text| && text[k] == ']' && text[k + 1] == ']' && text[k + 2] == '>'
  {
    if k + 3 <= |text| {
      assert text[k..k + 3] == [text[k], text[k + 1], text[k + 2]];
    }
  }

  lemma EntityEnds(body: string, at: nat, name: string)
    requires Proper(Entity(name)) && Occurs(body, "&" + name + ";", at)
    ensures EntityEnd(body, at) == at + |name| + 2
  {
    OccursParts(body, at, "&" + name, ";");
    OccursParts(body, at, "&", name);
    var end := at + 1 + |name|;
    OccursUnits(body, at + 1, name);
    forall k | at + 1 <= k < end
      ensures !Occurs(body, ";", k)
    {
      assert body[k..k + 1] == [name[k - at - 1]];
      assert name[k - at - 1] in name;
    }
    FindIs(body, ";", at + 1, end);
    assert body[at + 1..end] == name;
  }

  // Neither tag stands where an item of another kind does.
  lemma OtherTags(body: string, at: nat)
    requires at < |body|
    ensures body[at] != '<' ==> !Occurs(body, CLOSE, at) && !Occurs(body, CDATA, at)
    ensures Occurs(body, CDATA, at) ==> !Occurs(body, CLOSE, at)
  {
    if Occurs(body, CLOSE, at) {
      OccursAt(body, at, CLOSE, 0);
      OccursAt(body, at, CLOSE, 1);
    }
    if Occurs(body, CDATA, at) {
      OccursAt(body, at, CDATA, 0);
      OccursAt(body, at, CDATA, 1);
    }
  }

  lemma {:induction false} ItemsEnd(body: string, at: nat, items: seq<Item>)
    requires (forall item :: item in items ==> Proper(item)) && Occurs(body, Items(items) + CLOSE, at)
    ensures FragmentEnd(body, at) == at + |Items(items)| + |CLOSE|
    decreases |items|
  {
    hide FragmentEnd, Proper, ItemText;
    if items == [] {
      assert Items(items) + CLOSE == CLOSE;
      ClosingTag(body, at);
    } else {
      var item, rest := items[0], Items(items[1..]) + CLOSE;
      assert Items(items) + CLOSE == ItemText(item) + rest;
      OccursParts(body, at, ItemText(item), rest);
      ItemsEnd(body, at + |ItemText(item)|, items[1..]);
      assert item in items;
      ItemScanned(body, at, item);
    }
  }

  lemma ClosingTag(body: string, at: nat)
    requires Occurs(body, CLOSE, at)
    ensures FragmentEnd(body, at) == at + |CLOSE|
  {
  }

  // One proper item takes the scan to its end.
  lemma ItemScanned(body: string, at: nat, item: Item)
    requires Proper(item) && Occurs(body, ItemText(item), at)
    ensures FragmentEnd(body, at) == FragmentEnd(body, at + |ItemText(item)|)
  {
    hide FragmentEnd, Proper, Occurs;
    match item
    case CData(payload) => DataItem(body, at, payload);
    case Entity(name) => EntityItem(body, at, name);
    case Plain(c) => PlainItem(body, at, c);
  }

  lemma DataItem(body: string, at: nat, payload: string)
    requires Proper(CData(payload)) && Occurs(body, CDATA + payload + CDATA_END, at)
    ensures FragmentEnd(body, at) == FragmentEnd(body, at + |CDATA + payload + CDATA_END|)
  {
    hide FragmentEnd, Proper, Occurs;
    assert CDATA + payload + CDATA_END == CDATA + (payload + CDATA_END);
    OccursParts(body, at, CDATA, payload + CDATA_END);
    PayloadEnds(body, at + 9, payload);
    DataScanned(body, at, at + 9 + |payload|);
  }

  lemma EntityItem(body: string, at: nat, name: string)
    requires Proper(Entity(name)) && Occurs(body, "&" + name + ";", at)
    ensures FragmentEnd(body, at) == FragmentEnd(body, at + |"&" + name + ";"|)
  {
    hide FragmentEnd, Proper, EntityEnd;
    OccursAt(body, at, "&" + name + ";", 0);
    EntityEnds(body, at, name);
    EntityScanned(body, at);
  }

  lemma PlainItem(body: string, at: nat, c: char)
    requires Proper(Plain(c)) && Occurs(body, [c], at)
    ensures FragmentEnd(body, at) == FragmentEnd(body, at + 1)
  {
    hide FragmentEnd, Proper;
    OccursAt(body, at, [c], 0);
    PlainScanned(body, at, c);
  }

  lemma DataScanned(body: string, at: nat, close: nat)
    requires Occurs(body, CDATA, at) && Find(body, CDATA_END, at + 9) == close
    ensures FragmentEnd(body, at) == FragmentEnd(body, close + 3)
  {
    OtherTags(body, at);
  }

  lemma EntityScanned(body: string, at: nat)
    requires at < |body| && body[at] == '&' && EntityEnd(body, at) > 0
    ensures FragmentEnd(body, at) == FragmentEnd(body, EntityEnd(body, at))
  {
    OtherTags(body, at);
  }

  lemma PlainScanned(body: string, at: nat, c: char)
    requires at < |body| && body[at] == c && Proper(Plain(c))
    ensures FragmentEnd(body, at) == FragmentEnd(body, at + 1)
  {
    OtherTags(body, at);
  }

  // No opening tag starts in a markup piece, not even one that the text after it ends.
  lemma MarkupIsQuiet(body: string, at: nat, piece: string, next: nat)
    requires Markup(piece) && Occurs(body, piece, at) && next == at + |piece|
    requires next == |body| || Occurs(body, OPEN, next)
    ensures forall k :: at <= k < next ==> !Occurs(body, OPEN, k)
  {
    hide Occurs;
    forall k | at <= k < next
      ensures !Occurs(body, OPEN, k)
    {
      if k + |OPEN| <= next {
        OccursWithin(body, at, piece, k, OPEN);
      } else {
        OpensOnce(body, k, next);
      }
    }
  }

  // A tag does not start inside another tag, nor run over the end.
  lemma OpensOnce(body: string, k: nat, next: nat)
    requires k < next < k + |OPEN| && (next == |body| || Occurs(body, OPEN, next))
    ensures !Occurs(body, OPEN, k)
  {
    assert forall j :: 1 <= j < |OPEN| ==> OPEN[j] != '<';
    if k + |OPEN| <= |body| {
      assert body[k..k + |OPEN|][next - k] == body[next];
      OccursUnits(body, next, OPEN);
    }
  }

  lemma {:induction false} ReportCollapses(body: string, at: nat, pieces: seq<string>, fragments: seq<seq<Item>>)
    requires |pieces| == |fragments| + 1 && at <= |body| && body[at..] == Report(pieces, fragments)
    requires (forall p :: p in pieces ==> Markup(p)) && forall f, item :: f in fragments && item in f ==> Proper(item)
    ensures CollapsedFrom(body, at, at) == Joined(pieces)
    decreases |fragments|
  {
    hide FragmentEnd, Markup, Proper, CollapsedFrom, Fragment;
    var piece := pieces[0];
    assert piece in pieces;
    assert Occurs(body, body[at..], at);
    if fragments == [] {
      MarkupIsQuiet(body, at, piece, |body|);
      NoneLeft(body, at);
    } else {
      var fragment, rest := Fragment(fragments[0]), Report(pieces[1..], fragments[1..]);
      OccursParts(body, at, piece + fragment, rest);
      var end := at + |piece| + |fragment|;
      assert body[end..] == body[at..][end - at..] == rest;
      ReportCollapses(body, end, pieces[1..], fragments[1..]);
      FirstCollapses(body, at, piece, fragments[0]);
    }
  }

  lemma FirstCollapses(body: string, at: nat, piece: string, items: seq<Item>)
    requires Markup(piece) && (forall item :: item in items ==> Proper(item))
    requires Occurs(body, piece + Fragment(items), at)
    ensures var end := at + |piece| + |Fragment(items)|;
      end <= |body| && CollapsedFrom(body, at, at) == piece + PLACEHOLDER + CollapsedFrom(body, end, end)
  {
    hide FragmentEnd, Markup, Proper, CollapsedFrom, Items;
    var start, fragment := at + |piece|, Items(items) + CLOSE;
    assert Fragment(items) == OPEN + fragment;
    OccursParts(body, at, piece, OPEN + fragment);
    OccursParts(body, start, OPEN, fragment);
    MarkupIsQuiet(body, at, piece, start);
    ItemsEnd(body, start + |OPEN|, items);
    CollapseStep(body, at, start, start + |OPEN + fragment|);
    assert body[at..start] == piece;
  }

  lemma CollapseStep(body: string, at: nat, start: nat, end: nat)
    requires at <= start && Occurs(body, OPEN, start) && FragmentEnd(body, start + |OPEN|) == end
    requires forall k :: at <= k < start ==> !Occurs(body, OPEN, k)
    ensures start <= |body| && end <= |body|
    ensures CollapsedFrom(body, at, at) == body[at..start] + PLACEHOLDER + CollapsedFrom(body, end, end)
  {
    hide FragmentEnd;
    FindIs(body, OPEN, at, start);
  }

  lemma NoneLeft(body: string, at: nat)
    requires at <= |body| && forall k :: at <= k < |body| ==> !Occurs(body, OPEN, k)
    ensures CollapsedFrom(body, at, at) == body[at..]
  {
    hide FragmentEnd;
    assert Find(body, OPEN, at) < 0;
  }

  // The output depends on the markup only, whatever the payloads contain.
  lemma PayloadsDoNotMatter(pieces: seq<string>, fragments: seq<seq<Item>>)
    requires |pieces| == |fragments| + 1
    requires (forall p :: p in pieces ==> Markup(p)) && forall f, item :: f in fragments && item in f ==> Proper(item)
    ensures CollapsedFrom(Report(pieces, fragments), 0, 0) == Joined(pieces)
  {
    var body := Report(pieces, fragments);
    assert body[0..] == body;
    ReportCollapses(body, 0, pieces, fragments);
  }
}
