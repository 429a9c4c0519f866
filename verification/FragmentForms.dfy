// What a complete code fragment is, without reference to how the program scans for one
// (tools/cleanup/generate_cleanup_json.cpp fragmentPlaceholders).
module FragmentForms {
  import opened Search
  import opened Fragments

  // ---------------------------------------------------------------------------
  // The forms
  // ---------------------------------------------------------------------------

  // The text reads like the lower-case word, in any case of its letters.
  predicate Folds(text: string, word: string) {
    && |text| == |word|
    && forall k :: 0 <= k < |text| ==>
         text[k] == word[k] || ('a' <= word[k] <= 'z' && text[k] as int == word[k] as int - 32)
  }

  predicate Decimal(text: string) {
    text != [] && forall k :: 0 <= k < |text| ==> '0' <= text[k] <= '9'
  }

  predicate Hexadecimal(text: string) {
    text != [] && forall k :: 0 <= k < |text| ==>
      '0' <= text[k] <= '9' || 'a' <= text[k] <= 'f' || 'A' <= text[k] <= 'F'
  }

  // The five predefined entities and character references (XML 1.0, sections 4.1 and 4.6), in
  // any case.
  predicate IsEntity(name: string) {
    || Folds(name, "lt") || Folds(name, "gt") || Folds(name, "amp") || Folds(name, "quot") || Folds(name, "apos")
    || (name != [] && name[0] == '#' && Decimal(name[1..]))
    || (|name| >= 2 && name[0] == '#' && (name[1] == 'x' || name[1] == 'X') && Hexadecimal(name[2..]))
  }

  // A CDATA section up to its first end marker, an entity up to its first semicolon, or any
  // character that starts neither a tag nor an entity.
  ghost predicate IsItem(text: string) {
    || (exists payload ::
          && text == "<![CDATA[" + payload + "]]>"
          && forall k :: 0 <= k < |payload| - 2 ==>
             payload[k] == ']' && payload[k + 1] == ']' ==> payload[k + 2] != '>')
    || (exists name :: text == "&" + name + ";" && ';' !in name && IsEntity(name))
    || (|text| == 1 && text[0] != '<' && text[0] != '&')
  }

  ghost predicate IsContent(text: string)
    decreases |text|
  {
    text == [] || exists n: nat :: 1 <= n <= |text| && IsItem(text[..n]) && IsContent(text[n..])
  }

  // An opening tag, items, and the closing tag.
  ghost predicate IsFragment(body: string, start: nat, end: nat) {
    && start <= end <= |body|
    && exists content :: IsContent(content) && body[start..end] == "<codefragment>" + content + "</codefragment>"
  }

  // ---------------------------------------------------------------------------
  // Entities
  // ---------------------------------------------------------------------------

  lemma FoldsIs(text: string, word: string)
    requires forall k :: 0 <= k < |word| ==> 'a' <= word[k] <= 'z'
    ensures Lowered(text) == word <==> Folds(text, word)
  {
    if Folds(text, word) {
      forall k | 0 <= k < |text|
        ensures Lowered(text)[k] == word[k]
      {
      }
    }
    if Lowered(text) == word {
      forall k | 0 <= k < |text|
        ensures text[k] == word[k] || text[k] as int == word[k] as int - 32
      {
        assert Lowered(text)[k] == word[k];
      }
    }
  }

  lemma EntityIs(name: string)
    ensures EntityName(name) <==> IsEntity(name)
  {
    hide Lowered, Digits;
    FoldsIs(name, "lt");
    FoldsIs(name, "gt");
    FoldsIs(name, "amp");
    FoldsIs(name, "quot");
    FoldsIs(name, "apos");
    ReferenceIs(name);
  }

  lemma ReferenceIs(name: string)
    ensures var n := Lowered(name);
      (Occurs(n, "#", 0) && if Occurs(n, "#x", 0) then Digits(n[2..], true) else Digits(n[1..], false)) <==>
      || (name != [] && name[0] == '#' && Decimal(name[1..]))
      || (|name| >= 2 && name[0] == '#' && (name[1] == 'x' || name[1] == 'X') && Hexadecimal(name[2..]))
  {
    var n := Lowered(name);
    assert |name| >= 1 ==> n[0..1] == [n[0]];
    assert |name| >= 2 ==> n[0..2] == [n[0], n[1]];
    if |name| >= 2 {
      assert n[2..] == Lowered(name[2..]);
      DigitsAre(name[2..]);
    }
    if |name| >= 1 {
      assert n[1..] == Lowered(name[1..]);
      DigitsAre(name[1..]);
      assert |name| >= 2 ==> name[1..][0] == name[1];
    }
  }

  lemma DigitsAre(text: string)
    ensures Digits(Lowered(text), false) <==> Decimal(text)
    ensures Digits(Lowered(text), true) <==> Hexadecimal(text)
  {
    var n := Lowered(text);
    forall k | 0 <= k < |text|
      ensures '0' <= n[k] <= '9' <==> '0' <= text[k] <= '9'
      ensures 'a' <= n[k] <= 'f' <==> 'a' <= text[k] <= 'f' || 'A' <= text[k] <= 'F'
    {
    }
  }

  // ---------------------------------------------------------------------------
  // Items and contents
  // ---------------------------------------------------------------------------

  lemma PayloadIs(payload: string)
    ensures Proper(CData(payload)) <==>
      forall k :: 0 <= k < |payload| - 2 ==> payload[k] == ']' && payload[k + 1] == ']' ==> payload[k + 2] != '>'
  {
    forall k: nat
      ensures Occurs(payload, CDATA_END, k) <==>
        k + 3 <= |payload| && payload[k] == ']' && payload[k + 1] == ']' && payload[k + 2] == '>'
    {
      EndMarker(payload, k);
    }
    if Proper(CData(payload)) {
      forall k | 0 <= k < |payload| - 2 && payload[k] == ']' && payload[k + 1] == ']'
        ensures payload[k + 2] != '>'
      {
        assert !Occurs(payload, CDATA_END, k);
      }
    } else {
      var k :| 0 <= k <= |payload| && Occurs(payload, CDATA_END, k);
      assert payload[k] == ']' && payload[k + 1] == ']' && payload[k + 2] == '>';
    }
  }

  lemma ItemIs(item: Item)
    requires Proper(item)
    ensures IsItem(ItemText(item)) && |ItemText(item)| >= 1
  {
    match item {
      case CData(payload) =>
        PayloadIs(payload);
      case Entity(name) =>
        EntityIs(name);
      case Plain(c) =>
    }
  }

  lemma ItemOf(text: string) returns (item: Item)
    requires IsItem(text)
    ensures Proper(item) && ItemText(item) == text
  {
    if payload :|
      && text == "<![CDATA[" + payload + "]]>"
      && forall k :: 0 <= k < |payload| - 2 ==> payload[k] == ']' && payload[k + 1] == ']' ==> payload[k + 2] != '>'
    {
      PayloadIs(payload);
      item := CData(payload);
    } else if name :| text == "&" + name + ";" && ';' !in name && IsEntity(name) {
      EntityIs(name);
      item := Entity(name);
    } else {
      item := Plain(text[0]);
    }
  }

  lemma {:induction false} ItemsAreContent(items: seq<Item>)
    requires forall item :: item in items ==> Proper(item)
    ensures IsContent(Items(items))
    decreases |items|
  {
    if items != [] {
      hide ItemText, Proper, IsItem;
      var text, n := Items(items), |ItemText(items[0])|;
      assert items[0] in items;
      ItemIs(items[0]);
      ItemsAreContent(items[1..]);
      assert text[..n] == ItemText(items[0]) && text[n..] == Items(items[1..]);
    }
  }

  lemma {:induction false} ContentOf(text: string) returns (items: seq<Item>)
    requires IsContent(text)
    ensures (forall item :: item in items ==> Proper(item)) && Items(items) == text
    decreases |text|
  {
    hide ItemText, Proper, IsItem;
    if text == [] {
      items := [];
    } else {
      var n: nat :| 1 <= n <= |text| && IsItem(text[..n]) && IsContent(text[n..]);
      var item := ItemOf(text[..n]);
      var rest := ContentOf(text[n..]);
      items := [item] + rest;
      assert items[1..] == rest;
      assert text == text[..n] + text[n..];
    }
  }

  // ---------------------------------------------------------------------------
  // Complete fragments
  // ---------------------------------------------------------------------------

  // The item at the cursor, where the scan goes on after it.
  lemma ItemAt(body: string, cursor: nat) returns (item: Item)
    requires cursor < |body| && FragmentEnd(body, cursor) >= 0 && !Occurs(body, CLOSE, cursor)
    ensures Proper(item) && Occurs(body, ItemText(item), cursor) && |ItemText(item)| >= 1
    ensures FragmentEnd(body, cursor) == FragmentEnd(body, cursor + |ItemText(item)|)
  {
    if Occurs(body, CDATA, cursor) {
      item := DataAt(body, cursor);
    } else if body[cursor] == '&' {
      item := EntityAt(body, cursor);
    } else {
      item := Plain(body[cursor]);
      assert body[cursor..cursor + 1] == [body[cursor]];
    }
    ItemScanned(body, cursor, item);
  }

  lemma DataAt(body: string, cursor: nat) returns (item: Item)
    requires Occurs(body, CDATA, cursor) && FragmentEnd(body, cursor) >= 0 && !Occurs(body, CLOSE, cursor)
    ensures Proper(item) && Occurs(body, ItemText(item), cursor) && |ItemText(item)| >= 1
  {
    hide FragmentEnd, Occurs;
    var close := DataCloses(body, cursor);
    var payload := body[cursor + 9..close];
    item := CData(payload);
    PayloadFree(body, cursor + 9, close);
    OccursJoins(body, cursor, CDATA, payload);
    assert body[close..close + 3] == CDATA_END by {
      OccursThere(body, CDATA_END, close);
    }
    OccursFits(body, CDATA_END, close);
    OccursJoins(body, cursor, CDATA + payload, CDATA_END);
  }

  lemma OccursFits(text: string, part: string, at: nat)
    requires Occurs(text, part, at)
    ensures at + |part| <= |text|
  {
  }

  lemma OccursThere(text: string, part: string, at: nat)
    requires Occurs(text, part, at)
    ensures at + |part| <= |text| && text[at..at + |part|] == part
  {
  }

  lemma DataCloses(body: string, cursor: nat) returns (close: nat)
    requires Occurs(body, CDATA, cursor) && FragmentEnd(body, cursor) >= 0 && !Occurs(body, CLOSE, cursor)
    ensures cursor + 9 <= close <= |body| && Occurs(body, CDATA_END, close)
    ensures forall k :: cursor + 9 <= k < close ==> !Occurs(body, CDATA_END, k)
  {
    close := Find(body, CDATA_END, cursor + 9);
  }

  lemma PayloadFree(body: string, from: nat, close: nat)
    requires from <= close <= |body| && forall k :: from <= k < close ==> !Occurs(body, CDATA_END, k)
    ensures Proper(CData(body[from..close]))
  {
    var payload := body[from..close];
    forall k: nat | k <= |payload|
      ensures !Occurs(payload, CDATA_END, k)
    {
      EndMarker(payload, k);
      if k + 3 <= |payload| {
        EndMarker(body, from + k);
        assert payload[k] == body[from + k] && payload[k + 1] == body[from + k + 1]
          && payload[k + 2] == body[from + k + 2];
      }
    }
  }

  lemma OccursJoins(text: string, at: nat, a: string, b: string)
    requires Occurs(text, a, at) && at + |a| + |b| <= |text| && text[at + |a|..at + |a| + |b|] == b
    ensures Occurs(text, a + b, at)
  {
    OccursParts(text, at, a, b);
  }

  lemma EntityAt(body: string, cursor: nat) returns (item: Item)
    requires cursor < |body| && body[cursor] == '&' && EntityEnd(body, cursor) >= 0
    ensures Proper(item) && Occurs(body, ItemText(item), cursor) && |ItemText(item)| >= 1
  {
    hide EntityName;
    var end := Find(body, ";", cursor + 1);
    var name := body[cursor + 1..end];
    item := Entity(name);
    forall k | 0 <= k < |name|
      ensures name[k] != ';'
    {
      assert !Occurs(body, ";", cursor + 1 + k);
      assert body[cursor + 1 + k..cursor + 1 + k + 1] == [name[k]];
    }
    assert body[cursor..cursor + 1] == "&";
    OccursJoins(body, cursor, "&", name);
    OccursJoins(body, cursor, "&" + name, ";");
  }

  lemma {:induction false} ItemsAt(body: string, cursor: nat) returns (items: seq<Item>)
    requires FragmentEnd(body, cursor) >= 0
    ensures (forall item :: item in items ==> Proper(item)) && Occurs(body, Items(items) + CLOSE, cursor)
    ensures FragmentEnd(body, cursor) == cursor + |Items(items)| + |CLOSE|
    decreases |body| - cursor
  {
    hide ItemText, Proper, Occurs, FragmentEnd;
    if Occurs(body, CLOSE, cursor) {
      items := [];
      assert Items(items) + CLOSE == CLOSE;
      ClosingTag(body, cursor);
    } else {
      var item := ItemAt(body, cursor);
      var rest := ItemsAt(body, cursor + |ItemText(item)|);
      items := [item] + rest;
      ItemsGrow(body, cursor, item, rest);
    }
  }

  lemma ItemsGrow(body: string, cursor: nat, item: Item, rest: seq<Item>)
    requires Occurs(body, ItemText(item), cursor) && Occurs(body, Items(rest) + CLOSE, cursor + |ItemText(item)|)
    ensures Items([item] + rest) == ItemText(item) + Items(rest) && Occurs(body, Items([item] + rest) + CLOSE, cursor)
  {
    hide ItemText, Occurs;
    assert ([item] + rest)[1..] == rest;
    assert Items([item] + rest) + CLOSE == ItemText(item) + (Items(rest) + CLOSE);
    OccursParts(body, cursor, ItemText(item), Items(rest) + CLOSE);
  }

  lemma FoundIsFragment(body: string, start: nat, end: nat)
    requires Occurs(body, OPEN, start) && FragmentEnd(body, start + |OPEN|) == end
    ensures IsFragment(body, start, end)
  {
    hide FragmentEnd, IsContent, Proper, Items;
    var items := ItemsAt(body, start + |OPEN|);
    ItemsAreContent(items);
    var text := Items(items) + CLOSE;
    OccursParts(body, start, OPEN, text);
    OccursThere(body, OPEN + text, start);
    assert OPEN + text == "<codefragment>" + Items(items) + "</codefragment>";
  }

  lemma FragmentIsFound(body: string, start: nat, end: nat)
    requires IsFragment(body, start, end)
    ensures Occurs(body, OPEN, start) && FragmentEnd(body, start + |OPEN|) == end
  {
    hide FragmentEnd, IsContent, Proper, Items;
    var content :| IsContent(content) && body[start..end] == "<codefragment>" + content + "</codefragment>";
    var items := ContentOf(content);
    var text := Items(items) + CLOSE;
    assert body[start..end] == OPEN + text;
    assert Occurs(body, OPEN + text, start);
    OccursParts(body, start, OPEN, text);
    ItemsEnd(body, start + |OPEN|, items);
  }

  // The program finds a complete fragment exactly where there is one.
  lemma CompleteIs(body: string, start: nat, end: nat)
    ensures Occurs(body, OPEN, start) && FragmentEnd(body, start + |OPEN|) == end <==> IsFragment(body, start, end)
  {
    hide FragmentEnd, IsFragment, Occurs;
    if Occurs(body, OPEN, start) && FragmentEnd(body, start + |OPEN|) == end {
      FoundIsFragment(body, start, end);
    }
    if IsFragment(body, start, end) {
      FragmentIsFound(body, start, end);
    }
  }

  // ---------------------------------------------------------------------------
  // The output
  // ---------------------------------------------------------------------------

  // The spans are complete fragments from `lo` on, each the first one after the one before it,
  // and none comes after them.
  ghost predicate Chosen(body: string, spans: seq<Span>, lo: nat)
    decreases |spans|
  {
    if spans == [] then forall k: nat, e: nat :: lo <= k ==> !IsFragment(body, k, e)
    else
      && lo <= spans[0].start && IsFragment(body, spans[0].start, spans[0].end)
      && (forall k: nat, e: nat :: lo <= k < spans[0].start ==> !IsFragment(body, k, e))
      && Chosen(body, spans[1..], spans[0].end)
  }

  // The text from `copied` on, with <codefragment/> for every span.
  ghost predicate Writes(body: string, spans: seq<Span>, copied: nat, output: string)
    decreases |spans|
  {
    if spans == [] then copied <= |body| && output == body[copied..]
    else
      && copied <= spans[0].start <= spans[0].end <= |body|
      && exists rest :: output == body[copied..spans[0].start] + "<codefragment/>" + rest
           && Writes(body, spans[1..], spans[0].end, rest)
  }

  lemma NotComplete(body: string, k: nat)
    ensures Complete(body, k) <==> exists e: nat :: IsFragment(body, k, e)
  {
    hide IsFragment, FragmentEnd;
    forall e: nat
      ensures Occurs(body, OPEN, k) && FragmentEnd(body, k + |OPEN|) == e <==> IsFragment(body, k, e)
    {
      CompleteIs(body, k, e);
    }
    if Complete(body, k) {
      var e: nat := FragmentEnd(body, k + |OPEN|);
      assert IsFragment(body, k, e);
    }
  }

  lemma {:induction false} FragmentedIsChosen(body: string, spans: seq<Span>, lo: nat, copied: nat)
    requires Fragmented(body, spans, lo) && copied <= lo && copied <= |body|
    requires forall s :: s in spans ==> s.end <= |body|
    ensures Chosen(body, spans, lo) && Writes(body, spans, copied, Replaced(body, spans, copied))
    decreases |spans|
  {
    hide IsFragment, FragmentEnd, Complete;
    forall k: nat
      ensures Complete(body, k) <==> exists e: nat :: IsFragment(body, k, e)
    {
      NotComplete(body, k);
    }
    forall k: nat, e: nat | lo <= k && (spans == [] || k < spans[0].start)
      ensures !IsFragment(body, k, e)
    {
      assert !Complete(body, k);
    }
    if spans != [] {
      var first := spans[0];
      assert first in spans;
      CompleteOpens(body, first);
      FragmentedIsChosen(body, spans[1..], first.end, first.end);
    }
  }

  lemma CompleteOpens(body: string, s: Span)
    requires Complete(body, s.start) && FragmentEnd(body, s.start + |OPEN|) == s.end
    ensures IsFragment(body, s.start, s.end) && s.start <= s.end <= |body|
  {
    hide FragmentEnd;
    CompleteIs(body, s.start, s.end);
  }

  // The program's output, for every body.
  lemma OutputIs(body: string) returns (spans: seq<Span>)
    ensures Chosen(body, spans, 0) && Writes(body, spans, 0, CollapsedFrom(body, 0, 0))
  {
    spans := CollapsesComplete(body, 0, 0);
    FragmentedIsChosen(body, spans, 0, 0);
  }
}
