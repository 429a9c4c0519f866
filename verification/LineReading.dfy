// Physical lines of a log file, read in blocks (tools/logging/log_query_runtime.cpp
// LogFile::recent and LogFile::records).
module LineReading {
  import opened Basics
  import opened Codec
  import opened Search

  type Bytes = seq<Byte>

  const NEWLINE: Byte := 10
  const RECENT_BLOCK: nat := 1024 * 1024

  // ---------------------------------------------------------------------------
  // Physical lines
  // ---------------------------------------------------------------------------

  // The lines that end, each with its newline, and what comes after them.
  datatype Split = Split(lines: seq<Bytes>, rest: Bytes)

  function SplitOf(s: Bytes): Split {
    if s == [] then Split([], [])
    else
      var front, last := SplitOf(s[..|s| - 1]), s[|s| - 1];
      if last == NEWLINE then Split(front.lines + [front.rest + [last]], [])
      else Split(front.lines, front.rest + [last])
  }

  // A last line without a newline is a line as well.
  function Lines(s: Bytes): seq<Bytes> {
    var split := SplitOf(s);
    if split.rest == [] then split.lines else split.lines + [split.rest]
  }

  ghost predicate Unbroken(s: Bytes) {
    10 !in s
  }

  function Joined(lines: seq<Bytes>): Bytes {
    if lines == [] then [] else Joined(lines[..|lines| - 1]) + lines[|lines| - 1]
  }

  ghost predicate IsLine(s: Bytes) {
    s != [] && Unbroken(s[..|s| - 1])
  }

  ghost predicate Complete(s: Bytes) {
    IsLine(s) && s[|s| - 1] == 10
  }

  ghost predicate AllComplete(lines: seq<Bytes>) {
    forall i :: 0 <= i < |lines| ==> Complete(lines[i])
  }

  // Only the last byte of a line may be a newline, and of all lines but the last it is.
  ghost predicate AreLines(lines: seq<Bytes>) {
    (forall i :: 0 <= i < |lines| ==> IsLine(lines[i])) && (lines != [] ==> AllComplete(lines[..|lines| - 1]))
  }

  lemma SplitLast(s: Bytes, b: Byte)
    ensures SplitOf(s + [b]) ==
      if b == NEWLINE then Split(SplitOf(s).lines + [SplitOf(s).rest + [b]], [])
      else Split(SplitOf(s).lines, SplitOf(s).rest + [b])
  {
    assert (s + [b])[..|s|] == s;
  }

  lemma {:induction false} SplitRun(s: Bytes, run: Bytes)
    requires Unbroken(run)
    ensures SplitOf(s + run) == Split(SplitOf(s).lines, SplitOf(s).rest + run)
  {
    if run == [] {
      assert s + run == s;
    } else {
      var k := |run| - 1;
      assert s + run == s + run[..k] + [run[k]];
      SplitRun(s, run[..k]);
      SplitLast(s + run[..k], run[k]);
    }
  }

  lemma {:induction false} SplitShape(s: Bytes)
    ensures var split := SplitOf(s);
      Joined(split.lines) + split.rest == s && Unbroken(split.rest) && AllComplete(split.lines)
  {
    hide SplitOf, Joined, Complete, Unbroken;
    NothingSplit();
    if s != [] {
      var front, b := s[..|s| - 1], s[|s| - 1];
      assert s == front + [b];
      SplitShape(front);
      SplitLast(front, b);
      var split := SplitOf(front);
      if b == NEWLINE {
        NewLine(split.rest);
        JoinedLast(split.lines, split.rest + [b]);
      } else {
        StaysUnbroken(split.rest, b);
      }
      JoinsOn(split, b);
    }
  }

  lemma StaysUnbroken(rest: Bytes, b: Byte)
    requires Unbroken(rest) && b != NEWLINE
    ensures Unbroken(rest + [b])
  {
  }

  lemma JoinsOn(split: Split, b: Byte)
    ensures Joined(split.lines) + (split.rest + [b]) + [] == Joined(split.lines) + split.rest + [b]
    ensures Joined(split.lines) + (split.rest + [b]) == Joined(split.lines) + split.rest + [b]
  {
  }

  lemma NewLine(rest: Bytes)
    requires Unbroken(rest)
    ensures Complete(rest + [NEWLINE])
  {
    assert (rest + [NEWLINE])[..|rest|] == rest;
  }

  lemma JoinedLast(lines: seq<Bytes>, last: Bytes)
    ensures Joined(lines + [last]) == Joined(lines) + last
  {
    assert (lines + [last])[..|lines|] == lines;
  }

  // The lines are a split of the text, and the only one.
  lemma LinesAreLines(s: Bytes)
    ensures Joined(Lines(s)) == s && AreLines(Lines(s))
  {
    hide SplitOf, Joined, AreLines, AllComplete, Unbroken;
    SplitShape(s);
    LastLine(SplitOf(s).lines, SplitOf(s).rest);
  }

  // What is left after the complete lines makes a last line of its own.
  lemma LastLine(lines: seq<Bytes>, rest: Bytes)
    requires AllComplete(lines) && Unbroken(rest)
    ensures var all := if rest == [] then lines else lines + [rest];
      AreLines(all) && Joined(all) == Joined(lines) + rest
  {
    hide Complete, IsLine, Unbroken, Joined;
    forall i | 0 <= i < |lines|
      ensures IsLine(lines[i])
    {
      CompleteIsLine(lines[i]);
    }
    if rest != [] {
      UnbrokenIsLine(rest);
      JoinedLast(lines, rest);
      assert (lines + [rest])[..|lines|] == lines;
    }
  }

  lemma CompleteIsLine(s: Bytes)
    requires Complete(s)
    ensures IsLine(s)
  {
  }

  lemma UnbrokenIsLine(s: Bytes)
    requires Unbroken(s) && s != []
    ensures IsLine(s)
  {
  }

  lemma LinesAreUnique(lines: seq<Bytes>)
    requires AreLines(lines)
    ensures Lines(Joined(lines)) == lines
  {
    hide SplitOf, AllComplete, IsLine, Joined, Lines;
    NoLines();
    if lines == [] {
      NothingSplit();
    } else {
      var k := |lines| - 1;
      assert lines == lines[..k] + [lines[k]];
      CompleteSplit(lines[..k]);
      JoinedLast(lines[..k], lines[k]);
      LastSplit(Joined(lines[..k]), lines[..k], lines[k]);
    }
  }

  lemma LastSplit(s: Bytes, lines: seq<Bytes>, line: Bytes)
    requires SplitOf(s) == Split(lines, []) && IsLine(line)
    ensures Lines(s + line) == lines + [line]
  {
    hide SplitOf, Unbroken;
    var run, last := line[..|line| - 1], line[|line| - 1];
    SplitRun(s, run);
    SplitLast(s + run, last);
    assert line == run + [last] && [] + run == run;
    assert s + line == s + run + [last];
  }

  lemma NothingSplit()
    ensures SplitOf([]) == Split([], []) && Joined([]) == [] && Unbroken([])
  {
  }

  lemma {:induction false} CompleteSplit(lines: seq<Bytes>)
    requires AllComplete(lines)
    ensures SplitOf(Joined(lines)) == Split(lines, [])
  {
    hide SplitOf, Complete;
    if lines == [] {
      NothingSplit();
    } else {
      var k := |lines| - 1;
      CompleteSplit(lines[..k]);
      OneMore(Joined(lines[..k]), lines[k]);
    }
  }

  lemma OneMore(s: Bytes, line: Bytes)
    requires Complete(line) && SplitOf(s).rest == []
    ensures SplitOf(s + line) == Split(SplitOf(s).lines + [line], [])
  {
    hide SplitOf;
    var run := line[..|line| - 1];
    SplitRun(s, run);
    SplitLast(s + run, NEWLINE);
    assert line == run + [NEWLINE] && [] + run == run;
    assert s + line == s + run + [NEWLINE];
  }

  // Text after a newline, or after nothing, starts a line.
  predicate Ended(s: Bytes) {
    s == [] || s[|s| - 1] == NEWLINE
  }

  lemma {:induction false} SplitJoins(a: Bytes, b: Bytes)
    requires Ended(a)
    ensures SplitOf(a + b) == Split(SplitOf(a).lines + SplitOf(b).lines, SplitOf(b).rest) && SplitOf(a).rest == []
  {
    if b == [] {
      assert a + b == a;
    } else {
      var k := |b| - 1;
      assert (a + b)[..|a + b| - 1] == a + b[..k];
      SplitJoins(a, b[..k]);
    }
  }

  lemma LinesJoin(a: Bytes, b: Bytes)
    requires Ended(a)
    ensures Lines(a + b) == Lines(a) + Lines(b)
  {
    SplitJoins(a, b);
  }

  // ---------------------------------------------------------------------------
  // Reading
  // ---------------------------------------------------------------------------

  // The captured bytes, where reading starts, and the number of the line there.
  datatype LogFile = LogFile(bytes: Bytes, start: nat, firstLine: nat)

  datatype Result<T> = Ok(value: T) | Truncated

  // How many bytes a read at an offset may give at most; none when the file got shorter.
  type Reads = nat -> nat

  function ReadBlock(bytes: Bytes, offset: nat, amount: nat, available: Reads): (block: Bytes)
    requires offset + amount <= |bytes|
    ensures |block| <= amount && block == bytes[offset..offset + |block|]
    ensures block == [] <==> amount == 0 || available(offset) == 0
  {
    bytes[offset..offset + Min(amount, available(offset))]
  }

  // Some read in the range gives nothing.
  ghost predicate MayFail(bytes: Bytes, start: nat, block: nat, available: Reads) {
    exists offset: nat :: start <= offset < |bytes| && (block == 0 || available(offset) == 0)
  }

  datatype Delivered = Delivered(number: nat, text: Bytes, truncated: bool)

  function Cut(line: Bytes, number: nat, limit: nat): Delivered {
    Delivered(number, line[..Min(|line|, limit)], |line| > limit)
  }

  function Numbered(lines: seq<Bytes>, first: nat, limit: nat): (r: seq<Delivered>)
    ensures |r| == |lines|
  {
    seq(|lines|, i requires 0 <= i < |lines| => Cut(lines[i], first + i, limit))
  }

  // One record for each line, in order, with its number and as much of it as the limit allows.
  lemma RecordsAre(lines: seq<Bytes>, first: nat, limit: nat)
    ensures var records := Numbered(lines, first, limit);
      && |records| == |lines|
      && forall i :: 0 <= i < |lines| ==>
           && records[i].number == first + i && records[i].text <= lines[i]
           && (records[i].truncated <==> records[i].text != lines[i])
           && (|lines[i]| <= limit ==> records[i].text == lines[i])
           && (|lines[i]| > limit ==> |records[i].text| == limit)
  {
  }

  lemma NumberedLast(lines: seq<Bytes>, last: Bytes, first: nat, limit: nat)
    ensures Numbered(lines + [last], first, limit) ==
      Numbered(lines, first, limit) + [Cut(last, first + |lines|, limit)]
  {
  }

  lemma CutGrows(rest: Bytes, piece: Bytes, limit: nat)
    ensures var cut := rest[..Min(|rest|, limit)];
      && |cut| <= limit && (rest + piece)[..Min(|rest + piece|, limit)] == cut + piece[..Min(|piece|, limit - |cut|)]
  {
  }

  lemma NextNewline(block: Bytes, p: nat)
    requires p <= |block|
    ensures var newline := Find(block, [NEWLINE], p);
      if newline < 0 then Unbroken(block[p..])
      else p <= newline < |block| && block[newline] == NEWLINE && Unbroken(block[p..newline])
  {
    var newline := Find(block, [NEWLINE], p);
    var end := if newline < 0 then |block| else newline;
    forall k | p <= k < end
      ensures block[k] != NEWLINE
    {
      assert !Occurs(block, [NEWLINE], k);
      assert block[k..k + 1] == [block[k]];
    }
  }

  lemma PieceTaken(taken: Bytes, block: Bytes, p: nat, newline: int)
    requires p <= |block| && newline < |block|
    requires if newline < 0 then Unbroken(block[p..])
      else p <= newline && block[newline] == NEWLINE && Unbroken(block[p..newline])
    ensures var split := SplitOf(taken);
      if newline < 0
        then SplitOf(taken + block[p..]) == Split(split.lines, split.rest + block[p..])
          && block[p..|block|] == block[p..]
      else SplitOf(taken + block[p..newline + 1]) == Split(split.lines + [split.rest + block[p..newline + 1]], [])
  {
    hide SplitOf, Unbroken;
    if newline < 0 {
      SplitRun(taken, block[p..]);
    } else {
      var run := block[p..newline];
      assert block[p..newline + 1] == run + [NEWLINE];
      SplitRun(taken, run);
      SplitLast(taken + run, NEWLINE);
      assert taken + (run + [NEWLINE]) == taken + run + [NEWLINE];
      assert SplitOf(taken).rest + (run + [NEWLINE]) == SplitOf(taken).rest + run + [NEWLINE];
    }
  }

  // The block loop and what it holds between blocks: the line number, the retained bytes
  // and the physical length of the line at hand.
  class LineReader {
    const limit: nat
    const first: nat
    var line: nat
    var retained: Bytes
    var physicalBytes: nat
    var delivered: seq<Delivered>
    ghost var taken: Bytes

    ghost predicate Valid()
      reads this
    {
      var split := SplitOf(taken);
      && physicalBytes == |split.rest| && retained == split.rest[..Min(|split.rest|, limit)]
      && delivered == Numbered(split.lines, first, limit) && line + 1 == first + |split.lines|
    }

    constructor (first: nat, limit: nat)
      requires first >= 1
      ensures Valid() && taken == [] && this.first == first && this.limit == limit
    {
      this.first, this.limit := first, limit;
      line, retained, physicalBytes, delivered, taken := first - 1, [], 0, [], [];
      new;
      NothingSplit();
    }

    // The line at hand is complete; `whole` is all of it.
    method Flush(ghost whole: Bytes)
      requires physicalBytes == |whole| && retained == whole[..Min(|whole|, limit)]
      modifies this`line, this`retained, this`physicalBytes, this`delivered
      ensures line == old(line) + 1 && retained == [] && physicalBytes == 0
      ensures delivered == old(delivered) + [Cut(whole, line, limit)]
    {
      line := line + 1;
      delivered := delivered + [Delivered(line, retained, physicalBytes > limit)];
      retained := [];
      physicalBytes := 0;
    }

    // The bytes of the block from p to the end of the line, or of the block.
    method TakePiece(block: Bytes, p: nat) returns (end: nat)
      requires Valid() && p < |block|
      modifies this
      ensures Valid() && p < end <= |block| && taken == old(taken) + block[p..end]
    {
      hide SplitOf, Numbered, Find, Unbroken, Cut;
      NextNewline(block, p);
      var newline := Find(block, [NEWLINE], p);
      end := if newline < 0 then |block| else newline + 1;
      var amount := end - p;
      ghost var split := SplitOf(taken);
      PieceTaken(taken, block, p, newline);
      CutGrows(split.rest, block[p..end], limit);
      physicalBytes := physicalBytes + amount;
      var copy := Min(amount, limit - |retained|);
      retained := retained + block[p..p + copy];
      assert block[p..p + copy] == block[p..end][..copy];
      if newline >= 0 {
        Flush(split.rest + block[p..end]);
        NumberedLast(split.lines, split.rest + block[p..end], first, limit);
      }
      taken := taken + block[p..end];
    }

    method Take(block: Bytes)
      requires Valid()
      modifies this
      ensures Valid() && taken == old(taken) + block
    {
      hide *;
      var p: nat := 0;
      assert taken + block[..0] == taken;
      while p < |block|
        invariant p <= |block| && Valid() && taken == old(taken) + block[..p]
      {
        var end := TakePiece(block, p);
        assert block[..end] == block[..p] + block[p..end];
        p := end;
      }
      assert block[..|block|] == block;
    }

    method Finish()
      requires Valid()
      modifies this
      ensures delivered == Numbered(Lines(taken), first, limit) && taken == old(taken)
    {
      ghost var split := SplitOf(taken);
      if physicalBytes != 0 {
        Flush(split.rest);
        NumberedLast(split.lines, split.rest, first, limit);
      }
    }
  }

  lemma BlockTaken(bytes: Bytes, start: nat, offset: nat, next: nat)
    requires start <= offset <= next <= |bytes|
    ensures bytes[start..offset] + bytes[offset..next] == bytes[start..next]
    ensures bytes[start..start] == []
    ensures next == |bytes| ==> bytes[start..next] == bytes[start..]
  {
  }

  lemma ReadFails(bytes: Bytes, start: nat, offset: nat, block: nat, available: Reads)
    requires start <= offset < |bytes| && ReadBlock(bytes, offset, Min(block, |bytes| - offset), available) == []
    ensures MayFail(bytes, start, block, available)
  {
  }

  method Records(file: LogFile, limit: nat, available: Reads) returns (r: Result<seq<Delivered>>)
    requires file.start <= |file.bytes| && file.firstLine >= 1
    ensures r.Ok? ==> r.value == Numbered(Lines(file.bytes[file.start..]), file.firstLine, limit)
    ensures r.Truncated? ==> MayFail(file.bytes, file.start, limit, available)
  {
    hide ReadBlock, MayFail, Numbered, Lines, SplitOf;
    var reader := new LineReader(file.firstLine, limit);
    var offset := file.start;
    BlockTaken(file.bytes, file.start, file.start, file.start);
    while offset < |file.bytes|
      invariant file.start <= offset <= |file.bytes|
      invariant reader.Valid() && reader.taken == file.bytes[file.start..offset] && fresh(reader)
    {
      var block := ReadBlock(file.bytes, offset, Min(limit, |file.bytes| - offset), available);
      if block == [] {
        ReadFails(file.bytes, file.start, offset, limit, available);
        return Truncated;
      }
      reader.Take(block);
      BlockTaken(file.bytes, file.start, offset, offset + |block|);
      offset := offset + |block|;
    }
    BlockTaken(file.bytes, file.start, file.start, offset);
    reader.Finish();
    r := Ok(reader.delivered);
  }

  // ---------------------------------------------------------------------------
  // The last lines
  // ---------------------------------------------------------------------------

  // From a to b there is one line.
  ghost predicate Between(bytes: Bytes, a: nat, b: nat) {
    a < b <= |bytes| && Unbroken(bytes[a..b - 1])
  }

  // The starts of the lines that begin up to `upTo`, all of them, in order.  The end of the
  // file starts no line.
  ghost predicate AreStarts(bytes: Bytes, starts: seq<nat>, upTo: nat) {
    && upTo <= |bytes| && starts != [] && starts[0] == 0
    && (forall i :: 0 < i < |starts| ==> 0 < starts[i] < |bytes| && bytes[starts[i] - 1] == NEWLINE)
    && (forall i :: 0 <= i < |starts| - 1 ==> Between(bytes, starts[i], starts[i + 1]))
    && starts[|starts| - 1] <= upTo
    && forall p :: starts[|starts| - 1] <= p < upTo && p + 1 < |bytes| ==> bytes[p] != NEWLINE
  }

  lemma StartsStay(bytes: Bytes, starts: seq<nat>, from: nat, upTo: nat)
    requires AreStarts(bytes, starts, from) && from <= upTo <= |bytes| && Unbroken(bytes[from..upTo])
    ensures AreStarts(bytes, starts, upTo)
  {
    forall p | from <= p < upTo
      ensures bytes[p] != NEWLINE
    {
      assert bytes[p] == bytes[from..upTo][p - from];
    }
  }

  lemma StartsGrow(bytes: Bytes, starts: seq<nat>, at: nat)
    requires AreStarts(bytes, starts, at) && at < |bytes| && bytes[at] == NEWLINE
    ensures AreStarts(bytes, if at + 1 < |bytes| then starts + [at + 1] else starts, at + 1)
  {
    hide Between;
    if at + 1 < |bytes| {
      NewGap(bytes, starts[|starts| - 1], at);
      GapsGrow(bytes, starts, at + 1);
    }
  }

  lemma GapsGrow(bytes: Bytes, starts: seq<nat>, next: nat)
    requires starts != [] && Between(bytes, starts[|starts| - 1], next)
    requires forall i :: 0 <= i < |starts| - 1 ==> Between(bytes, starts[i], starts[i + 1])
    ensures var more := starts + [next]; forall i :: 0 <= i < |more| - 1 ==> Between(bytes, more[i], more[i + 1])
  {
    hide Between;
    var more := starts + [next];
    forall i | 0 <= i < |more| - 1
      ensures Between(bytes, more[i], more[i + 1])
    {
      assert more[i] == starts[i] && (i < |starts| - 1 ==> more[i + 1] == starts[i + 1]);
    }
  }

  lemma NewGap(bytes: Bytes, last: nat, at: nat)
    requires last <= at < |bytes| && forall p :: last <= p < at ==> bytes[p] != NEWLINE
    ensures Between(bytes, last, at + 1)
  {
  }

  lemma OneLine(piece: Bytes)
    requires IsLine(piece)
    ensures Lines(piece) == [piece]
  {
    assert [piece][..0] == [];
    LinesAreUnique([piece]);
    assert Joined([piece]) == piece by {
      JoinedLast([], piece);
      assert [] + [piece] == [piece] && Joined([]) == [] && [] + piece == piece;
    }
  }

  lemma {:induction false} LinesBefore(bytes: Bytes, starts: seq<nat>, upTo: nat, i: nat)
    requires AreStarts(bytes, starts, upTo) && i < |starts|
    ensures starts[i] <= |bytes| && Ended(bytes[..starts[i]]) && |Lines(bytes[..starts[i]])| == i
  {
    hide Lines, SplitOf;
    if i == 0 {
      assert bytes[..starts[0]] == [];
      NoLines();
    } else {
      LinesBefore(bytes, starts, upTo, i - 1);
      var piece := bytes[starts[i - 1]..starts[i]];
      assert piece[..|piece| - 1] == bytes[starts[i - 1]..starts[i - 1 + 1] - 1];
      OneLine(piece);
      LinesJoin(bytes[..starts[i - 1]], piece);
      assert bytes[..starts[i]] == bytes[..starts[i - 1]] + piece;
    }
  }

  lemma NoLines()
    ensures Lines([]) == []
  {
  }

  // There is a line for every start, and the text from a start on has the lines from there.
  lemma StartsAreLines(bytes: Bytes, starts: seq<nat>, i: nat)
    requires AreStarts(bytes, starts, |bytes|) && i < |starts|
    ensures starts[i] <= |bytes|
    ensures bytes == [] ==> Lines(bytes) == [] && |starts| == 1
    ensures bytes != [] ==> |Lines(bytes)| == |starts| && Lines(bytes[starts[i]..]) == Lines(bytes)[i..]
  {
    hide Lines, SplitOf;
    if bytes == [] {
      NoLines();
    } else {
      var last := |starts| - 1;
      LinesBefore(bytes, starts, |bytes|, last);
      var tail := bytes[starts[last]..];
      assert tail != [] && Unbroken(tail[..|tail| - 1]);
      OneLine(tail);
      LinesJoin(bytes[..starts[last]], tail);
      assert bytes == bytes[..starts[last]] + tail;
      LinesBefore(bytes, starts, |bytes|, i);
      LinesJoin(bytes[..starts[i]], bytes[starts[i]..]);
      assert bytes == bytes[..starts[i]] + bytes[starts[i]..];
    }
  }

  function LastOf(all: seq<nat>, count: nat): seq<nat> {
    all[|all| - Min(Max(count, 1), |all|)..]
  }

  lemma LastGrows(all: seq<nat>, next: nat, count: nat)
    requires all != []
    ensures var more := LastOf(all, count) + [next];
      LastOf(all + [next], count) == if |more| > count then more[1..] else more
  {
  }

  // The same file from its last `count` lines on, from the last one when the count is zero.
  method Recent(file: LogFile, count: nat, available: Reads) returns (r: Result<LogFile>)
    ensures r.Ok? ==> r.value.bytes == file.bytes && r.value.start <= |file.bytes|
    ensures r.Ok? ==>
      var all := Lines(file.bytes);
      var skipped := |all| - Min(Max(count, 1), |all|);
      && Lines(file.bytes[r.value.start..]) == all[skipped..] && r.value.firstLine == skipped + 1
      && forall limit: nat ::
         Numbered(Lines(file.bytes[r.value.start..]), r.value.firstLine, limit) == Numbered(all, 1, limit)[skipped..]
    ensures r.Truncated? ==> MayFail(file.bytes, 0, RECENT_BLOCK, available)
  {
    hide AreStarts, Find, Lines, Unbroken, LastOf, Numbered, ReadBlock, MayFail;
    var bytes := file.bytes;
    var starts: seq<nat> := [0];
    var lines: nat := 1;
    var offset: nat := 0;
    ghost var all: seq<nat> := [0];
    FirstStart(bytes, count);
    while offset < |bytes|
      invariant offset <= |bytes| && AreStarts(bytes, all, offset)
      invariant lines == |all| >= 1 && starts == LastOf(all, count)
    {
      var block := ReadBlock(bytes, offset, Min(RECENT_BLOCK, |bytes| - offset), available);
      if block == [] {
        ReadFails(bytes, 0, offset, RECENT_BLOCK, available);
        return Truncated;
      }
      starts, lines, all := ScanBlock(bytes, offset, block, count, starts, lines, all);
      offset := offset + |block|;
    }
    RecentIsLast(bytes, all, count);
    r := Ok(LogFile(bytes, starts[0], lines - |starts| + 1));
  }

  lemma RecentIsLast(bytes: Bytes, all: seq<nat>, count: nat)
    requires AreStarts(bytes, all, |bytes|)
    ensures var starts, lines := LastOf(all, count), Lines(bytes);
      var skipped := |lines| - Min(Max(count, 1), |lines|);
      && starts != [] && starts[0] <= |bytes|
      && Lines(bytes[starts[0]..]) == lines[skipped..] && |all| - |starts| == skipped
      && forall limit: nat ::
         Numbered(Lines(bytes[starts[0]..]), skipped + 1, limit) == Numbered(lines, 1, limit)[skipped..]
  {
    hide Lines, Numbered;
    StartsAreLines(bytes, all, |all| - |LastOf(all, count)|);
    var skipped := |Lines(bytes)| - Min(Max(count, 1), |Lines(bytes)|);
    forall limit: nat
      ensures Numbered(Lines(bytes[LastOf(all, count)[0]..]), skipped + 1, limit) ==
        Numbered(Lines(bytes), 1, limit)[skipped..]
    {
      RecentRecordsAreLast(bytes, LastOf(all, count)[0], skipped, limit);
    }
  }

  lemma FirstStart(bytes: Bytes, count: nat)
    ensures AreStarts(bytes, [0], 0) && LastOf([0], count) == [0]
  {
  }

  method ScanBlock(
      bytes: Bytes, offset: nat, block: Bytes, count: nat, starts0: seq<nat>, lines0: nat, ghost all0: seq<nat>)
    returns (starts: seq<nat>, lines: nat, ghost all: seq<nat>)
    requires offset + |block| <= |bytes| && block == bytes[offset..offset + |block|] && AreStarts(bytes, all0, offset)
    requires lines0 == |all0| >= 1 && starts0 == LastOf(all0, count)
    ensures AreStarts(bytes, all, offset + |block|)
    ensures lines == |all| >= 1 && starts == LastOf(all, count)
  {
    hide AreStarts, Find, Unbroken, LastOf;
    starts, lines, all := starts0, lines0, all0;
    NextNewline(block, 0);
    var p := Find(block, [NEWLINE], 0);
    Skipped(bytes, offset, block, all, 0, p);
    while p >= 0
      invariant p < |block| && (p >= 0 ==> block[p] == NEWLINE)
      invariant AreStarts(bytes, all, offset + if p < 0 then |block| else p)
      invariant lines == |all| >= 1 && starts == LastOf(all, count)
      decreases if p < 0 then 0 else |block| - p
    {
      var next := offset + p + 1;
      StartsGrow(bytes, all, offset + p);
      if next < |bytes| {
        LastGrows(all, next, count);
        starts := starts + [next];
        if |starts| > count {
          starts := starts[1..];
        }
        lines := lines + 1;
        all := all + [next];
      }
      NextNewline(block, p + 1);
      ghost var q: nat := p + 1;
      p := Find(block, [NEWLINE], p + 1);
      Skipped(bytes, offset, block, all, q, p);
    }
  }

  lemma Skipped(bytes: Bytes, offset: nat, block: Bytes, starts: seq<nat>, from: nat, newline: int)
    requires offset + |block| <= |bytes| && block == bytes[offset..offset + |block|] && from <= |block|
      && newline < |block|
    requires AreStarts(bytes, starts, offset + from)
    requires if newline < 0 then Unbroken(block[from..]) else from <= newline && Unbroken(block[from..newline])
    ensures AreStarts(bytes, starts, offset + if newline < 0 then |block| else newline)
  {
    var end := if newline < 0 then |block| else newline;
    Slice(bytes, offset, offset + |block|, from, end);
    assert newline < 0 ==> block[from..] == block[from..end];
    StartsStay(bytes, starts, offset + from, offset + end);
  }

  // Reading from there delivers exactly the last records of the whole file, with their
  // numbers.
  lemma RecentRecordsAreLast(bytes: Bytes, start: nat, skipped: nat, limit: nat)
    requires start <= |bytes| && skipped <= |Lines(bytes)| && Lines(bytes[start..]) == Lines(bytes)[skipped..]
    ensures Numbered(Lines(bytes[start..]), skipped + 1, limit) == Numbered(Lines(bytes), 1, limit)[skipped..]
  {
  }
}
