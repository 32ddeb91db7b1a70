/** Forward scan limits: line lookup in a joined text, brace matching, and the heuristic scan end
    (apatch/boundary_scope.py). */
module BoundaryScope {
  import opened Common

  // "".join(lines)
  function Joined(lines: seq<string>): string {
    if lines == [] then "" else Joined(lines[..|lines| - 1]) + lines[|lines| - 1]
  }

  // Where each line begins in the joined text, and where the text ends.
  ghost predicate AreOffsets(offsets: seq<nat>, lines: seq<string>) {
    |offsets| == |lines| + 1 && forall i :: 0 <= i <= |lines| ==> offsets[i] == |Joined(lines[..i])|
  }

  // Character pos of the joined text lies in line i.
  ghost predicate Holds(lines: seq<string>, i: nat, pos: nat) {
    i < |lines| && |Joined(lines[..i])| <= pos < |Joined(lines[..i])| + |lines[i]|
  }

  lemma JoinedNext(lines: seq<string>, i: nat)
    requires i < |lines|
    ensures Joined(lines[..i + 1]) == Joined(lines[..i]) + lines[i]
  {
    assert lines[..i + 1][..i] == lines[..i];
  }

  lemma {:induction false} JoinedPrefix(lines: seq<string>, i: nat, j: nat)
    requires i <= j <= |lines|
    ensures Joined(lines[..i]) <= Joined(lines[..j])
    decreases j
  {
    if i < j {
      JoinedPrefix(lines, i, j - 1);
      JoinedNext(lines, j - 1);
    }
  }

  // The line that holds a position has that character there, and no other line holds it.
  lemma HeldCharacter(lines: seq<string>, i: nat, pos: nat)
    requires Holds(lines, i, pos)
    ensures pos < |Joined(lines)| && Joined(lines)[pos] == lines[i][pos - |Joined(lines[..i])|]
  {
    JoinedNext(lines, i);
    JoinedPrefix(lines, i + 1, |lines|);
    assert lines[..|lines|] == lines;
  }

  lemma HeldOnce(lines: seq<string>, i: nat, j: nat, pos: nat)
    requires Holds(lines, i, pos) && Holds(lines, j, pos)
    ensures i == j
  {
    if i < j {
      JoinedNext(lines, i);
      JoinedPrefix(lines, i + 1, j);
    } else if j < i {
      JoinedNext(lines, j);
      JoinedPrefix(lines, j + 1, i);
    }
  }

  // _line_byte_offsets
  method LineOffsets(lines: seq<string>) returns (offsets: seq<nat>)
    ensures |offsets| == |lines| + 1 && forall i :: 0 <= i <= |lines| ==> offsets[i] == |Joined(lines[..i])|
  {
    offsets := [0];
    for n := 0 to |lines|
      invariant |offsets| == n + 1 && forall i :: 0 <= i <= n ==> offsets[i] == |Joined(lines[..i])|
    {
      JoinedNext(lines, n);
      offsets := offsets + [offsets[|offsets| - 1] + |lines[n]|];
    }
  }

  lemma OffsetsGrow(lines: seq<string>, offsets: seq<nat>, i: nat, j: nat)
    requires AreOffsets(offsets, lines) && i <= j <= |lines|
    ensures offsets[i] <= offsets[j]
  {
    JoinedPrefix(lines, i, j);
  }

  // _byte_to_line: inside the text, the line that holds the position, empty lines notwithstanding; at
  // or behind its end, the number of lines.
  method LineOfPosition(offsets: seq<nat>, pos: nat, ghost lines: seq<string>) returns (line: nat)
    requires AreOffsets(offsets, lines)
    ensures line <= |lines|
    ensures pos < |Joined(lines)| ==> Holds(lines, line, pos)
    ensures pos >= |Joined(lines)| ==> line == |lines|
  {
    var hi := |offsets| - 1;
    line := 0;
    while line < hi
      invariant line <= hi < |offsets| && offsets[line] <= pos
      invariant forall j :: hi < j < |offsets| ==> pos < offsets[j]
    {
      var mid := (line + hi + 1) / 2;
      if offsets[mid] <= pos {
        line := mid;
      } else {
        forall j | mid - 1 < j < |offsets| ensures pos < offsets[j] { OffsetsGrow(lines, offsets, mid, j); }
        hi := mid - 1;
      }
    }
    assert lines[..|lines|] == lines;
    if line < |lines| {
      JoinedNext(lines, line);
      OffsetsGrow(lines, offsets, line + 1, |lines|);
    }
  }

  // ---------- Braces ----------

  // Opening minus closing braces.
  function Depth(text: string): int {
    if text == "" then 0
    else Depth(text[..|text| - 1]) + if text[|text| - 1] == '{' then 1 else if text[|text| - 1] == '}' then -1 else 0
  }

  lemma {:induction false} DepthCounts(text: string)
    ensures Depth(text) + multiset(text)['}'] == multiset(text)['{']
  {
    if text != "" {
      DepthCounts(text[..|text| - 1]);
      assert text == text[..|text| - 1] + [text[|text| - 1]];
    }
  }

  ghost predicate IsBalanced(text: string) {
    Depth(text) == 0 && forall n :: 0 <= n <= |text| ==> Depth(text[..n]) >= 0
  }

  // The braces at a and b belong together: what lies between them is balanced.
  ghost predicate Matches(text: string, a: nat, b: nat) {
    a < b < |text| && text[a] == '{' && text[b] == '}' && IsBalanced(text[a + 1..b])
  }

  // The depth right behind position n, counted from a.
  function DepthBehind(text: string, a: nat, n: nat): int
    requires a <= n < |text|
  {
    Depth(text[a..n + 1])
  }

  // From the brace at a, the depth is back at zero right behind position b, and not before.
  ghost predicate FirstReturns(text: string, a: nat, b: nat) {
    a <= b < |text| && DepthBehind(text, a, b) == 0 && forall n :: a <= n < b ==> DepthBehind(text, a, n) != 0
  }

  lemma DepthNext(text: string, a: nat, n: nat)
    requires a <= n < |text|
    ensures Depth(text[a..n + 1]) == Depth(text[a..n]) + if text[n] == '{' then 1 else if text[n] == '}' then -1 else 0
  {
    assert text[a..n + 1][..n - a] == text[a..n];
  }

  lemma {:induction false} DepthInside(text: string, a: nat, n: nat)
    requires a < n <= |text| && text[a] == '{'
    ensures Depth(text[a..n]) == 1 + Depth(text[a + 1..n])
    decreases n
  {
    DepthNext(text, a, n - 1);
    if n == a + 1 {
      assert text[a..a] == "" && text[a + 1..a + 1] == "";
    } else {
      DepthInside(text, a, n - 1);
      DepthNext(text, a + 1, n - 1);
    }
  }

  lemma {:induction false} StaysOpen(text: string, a: nat, n: nat)
    requires a < n <= |text| && text[a] == '{'
    requires forall m :: a <= m < n ==> DepthBehind(text, a, m) != 0
    ensures Depth(text[a..n]) >= 1
    decreases n
  {
    assert text[a..a] == "";
    DepthNext(text, a, n - 1);
    assert DepthBehind(text, a, n - 1) != 0;
    if n > a + 1 { StaysOpen(text, a, n - 1); }
  }

  // The first return to zero is the matching brace.
  lemma FirstReturnIsMatch(text: string, a: nat, b: nat)
    requires a < |text| && text[a] == '{'
    ensures FirstReturns(text, a, b) <==> Matches(text, a, b)
  {
    if FirstReturns(text, a, b) {
      assert text[a..a] == "";
      DepthNext(text, a, a);
      StaysOpen(text, a, b);
      DepthNext(text, a, b);
      DepthInside(text, a, b);
      var inner := text[a + 1..b];
      forall n | 0 <= n <= |inner| ensures Depth(inner[..n]) >= 0 {
        assert inner[..n] == text[a + 1..a + 1 + n];
        StaysOpen(text, a, a + 1 + n);
        DepthInside(text, a, a + 1 + n);
      }
    }
    if Matches(text, a, b) {
      DepthInside(text, a, b);
      DepthNext(text, a, b);
      forall n | a <= n < b ensures DepthBehind(text, a, n) != 0 {
        assert text[a + 1..b][..n - a] == text[a + 1..n + 1];
        DepthInside(text, a, n + 1);
      }
    }
  }

  // str.find for one character
  method FindBrace(line: string) returns (at: Option<nat>)
    ensures at.None? <==> '{' !in line
    ensures at.Some? ==> at.value < |line| && line[at.value] == '{' && '{' !in line[..at.value]
  {
    for i := 0 to |line|
      invariant '{' !in line[..i]
    {
      if line[i] == '{' { return Some(i); }
    }
    at := None;
  }

  // Where the first brace of a line stands in the joined text.
  function FirstBrace(lines: seq<string>, open: nat): nat
    requires open < |lines|
  {
    |Joined(lines[..open])| + BraceIn(lines[open])
  }

  function BraceIn(line: string): (at: nat)
    ensures at <= |line| && '{' !in line[..at] && (at < |line| ==> line[at] == '{')
  {
    if line == "" || line[0] == '{' then 0 else BraceIn(line[1..]) + 1
  }

  // The brace that matches the first one of the open line is on this line.
  ghost predicate ClosesFrom(lines: seq<string>, open: nat, line: nat, b: nat)
    requires open < |lines|
  {
    '{' in lines[open] && Matches(Joined(lines), FirstBrace(lines, open), b) && Holds(lines, line, b)
  }

  // That line has no brace, or its first one has no match.
  ghost predicate IsUnclosed(lines: seq<string>, open: nat)
    requires open < |lines|
  {
    '{' !in lines[open] || forall b :: 0 <= b < |Joined(lines)| ==> !Matches(Joined(lines), FirstBrace(lines, open), b)
  }

  // _block_close_exclusive_line: one past the line of the brace that matches the first one of the open
  // line; nothing exactly if that line has no brace or its match is missing.
  method BlockClose(lines: seq<string>, open: nat) returns (end: Option<nat>)
    requires open < |lines|
    ensures end.None? <==>
              '{' !in lines[open] || forall b :: !Matches(Joined(lines), FirstBrace(lines, open), b)
    ensures end.Some? ==> open < end.value <= |lines|
    ensures end.Some? ==> exists line: nat, b: nat :: end.value == line + 1 && ClosesFrom(lines, open, line, b)
  {
    var full := Joined(lines);
    var offsets := LineOffsets(lines);
    var rel := FindBrace(lines[open]);
    if rel.None? { return None; }
    var start := offsets[open] + rel.value;
    BraceStart(lines, open, rel.value);
    var depth := 0;
    assert full[start..start] == "";
    for i := start to |full|
      invariant depth == Depth(full[start..i])
      invariant forall n :: start <= n < i ==> DepthBehind(full, start, n) != 0
    {
      var ch := full[i];
      DepthNext(full, start, i);
      if ch == '{' {
        depth := depth + 1;
      } else if ch == '}' {
        depth := depth - 1;
        if depth == 0 {
          FirstReturnIsMatch(full, start, i);
          var closeLine := LineOfPosition(offsets, i, lines);
          ClosesBehind(lines, open, start, closeLine, i);
          assert ClosesFrom(lines, open, closeLine, i);
          return Some(if closeLine + 1 < |lines| then closeLine + 1 else |lines|);
        }
      }
      if i > start { StaysOpen(full, start, i); }
    }
    forall b ensures !Matches(full, start, b) {
      FirstReturnIsMatch(full, start, b);
    }
    end := None;
  }

  lemma {:induction false} BraceInIs(line: string, rel: nat)
    requires rel < |line| && line[rel] == '{' && '{' !in line[..rel]
    ensures BraceIn(line) == rel
  {
    if rel > 0 {
      assert line[..rel][0] == line[0];
      assert line[1..][..rel - 1] == line[..rel][1..];
      BraceInIs(line[1..], rel - 1);
    }
  }

  lemma BraceStart(lines: seq<string>, open: nat, rel: nat)
    requires open < |lines| && rel < |lines[open]| && lines[open][rel] == '{' && '{' !in lines[open][..rel]
    ensures FirstBrace(lines, open) == |Joined(lines[..open])| + rel < |Joined(lines)|
    ensures Joined(lines)[FirstBrace(lines, open)] == '{' && Holds(lines, open, FirstBrace(lines, open))
  {
    BraceInIs(lines[open], rel);
    HeldCharacter(lines, open, |Joined(lines[..open])| + rel);
  }

  lemma ClosesBehind(lines: seq<string>, open: nat, start: nat, line: nat, b: nat)
    requires Holds(lines, open, start) && Holds(lines, line, b) && start <= b
    ensures open <= line
  {
    if line < open {
      JoinedNext(lines, line);
      JoinedPrefix(lines, line + 1, open);
    }
  }

  // ---------- The heuristic scan end ----------

  // len(line) - len(line.lstrip())
  function Indent(line: string): (n: nat)
    ensures n <= |line| && (forall i :: 0 <= i < n ==> IsSpace(line[i])) && (n < |line| ==> !IsSpace(line[n]))
  {
    if line == "" || !IsSpace(line[0]) then 0 else Indent(line[1..]) + 1
  }

  const WINDOW := 120

  predicate Outdents(lines: seq<string>, start: nat, i: nat)
    requires start < |lines| && i < |lines|
  {
    '{' in lines[i] && Indent(lines[i]) < Indent(lines[start])
  }

  function OutdentMarks(lines: seq<string>, start: nat): (marks: seq<bool>)
    requires start < |lines|
    ensures |marks| == |lines|
  {
    seq(|lines|, i requires 0 <= i < |lines| => Outdents(lines, start, i))
  }

  // The nearest marked line at or above start, within the window.
  ghost predicate IsNearest(marks: seq<bool>, start: nat, at: nat) {
    start - WINDOW < at <= start < |marks| && marks[at] && forall i :: at < i <= start ==> !marks[i]
  }

  ghost predicate NoneNear(marks: seq<bool>, start: nat)
    requires start < |marks|
  {
    forall i :: 0 <= i <= start && start - WINDOW < i ==> !marks[i]
  }

  // The nearest line that a pattern marks as opening a block; failing that, the nearest one with a
  // brace that is indented less than the start line.
  ghost predicate IsOpenLine(lines: seq<string>, opens: seq<bool>, start: nat, at: Option<nat>)
    requires start < |lines| == |opens|
  {
    if !NoneNear(opens, start) then at.Some? && IsNearest(opens, start, at.value)
    else if !NoneNear(OutdentMarks(lines, start), start) then
      at.Some? && IsNearest(OutdentMarks(lines, start), start, at.value)
    else at.None?
  }

  // _find_block_open_line, with the pattern tests given.
  method FindBlockOpenLine(lines: seq<string>, opens: seq<bool>, start: nat) returns (at: Option<nat>)
    requires start < |lines| == |opens|
    ensures IsOpenLine(lines, opens, start, at)
  {
    var i: int := start;
    while i > start - WINDOW && i >= 0
      invariant -1 <= i <= start
      invariant forall k :: i < k <= start && 0 <= k && start - WINDOW < k ==> !opens[k]
    {
      if opens[i] { return Some(i); }
      i := i - 1;
    }
    ghost var marks := OutdentMarks(lines, start);
    var startIndent := Indent(lines[start]);
    i := start;
    while i > start - WINDOW && i >= 0
      invariant -1 <= i <= start
      invariant forall k :: i < k <= start && 0 <= k && start - WINDOW < k ==> !marks[k]
    {
      if '{' in lines[i] && Indent(lines[i]) < startIndent {
        assert marks[i];
        return Some(i);
      }
      i := i - 1;
    }
    at := None;
  }

  // The answer is the nearest of the 120 lines up to start that opens a block by its pattern, else the nearest
  // of them with a brace and less indentation than the start line, else none.
  lemma OpenLineExactly(lines: seq<string>, opens: seq<bool>, start: nat, at: Option<nat>)
    requires start < |lines| == |opens|
    ensures IsOpenLine(lines, opens, start, at) <==>
      if exists i :: 0 <= i <= start && start - i < 120 && opens[i] then
        && at.Some? && at.value <= start && start - at.value < 120 && opens[at.value]
        && forall i :: at.value < i <= start ==> !opens[i]
      else if exists i ::
                0 <= i <= start && start - i < 120 && '{' in lines[i] && Indent(lines[i]) < Indent(lines[start]) then
        && at.Some? && at.value <= start && start - at.value < 120
        && '{' in lines[at.value] && Indent(lines[at.value]) < Indent(lines[start])
        && forall i :: at.value < i <= start ==> '{' !in lines[i] || Indent(lines[i]) >= Indent(lines[start])
      else at.None?
  {
    var marks := OutdentMarks(lines, start);
    assert forall i :: 0 <= i < |lines| ==> marks[i] == ('{' in lines[i] && Indent(lines[i]) < Indent(lines[start]));
  }

  // The block that is open at start closes on this line.
  ghost predicate ClosesOn(lines: seq<string>, opens: seq<bool>, start: nat, line: nat)
    requires start < |lines| == |opens|
  {
    exists open: nat, b: nat ::
      open < |lines| && IsOpenLine(lines, opens, start, Some(open)) && ClosesFrom(lines, open, line, b)
  }

  // Behind that line, if it is at or below start, and the end of the file otherwise.
  ghost predicate IsScanEnd(lines: seq<string>, opens: seq<bool>, start: nat, end: nat)
    requires start < |lines| == |opens|
  {
    || (end == |lines| && forall line: nat :: ClosesOn(lines, opens, start, line) ==> line < start)
    || (exists line: nat :: ClosesOn(lines, opens, start, line) && start <= line && end == line + 1)
  }

  // A line closes the block iff it holds the brace that matches the first one of the open line.
  lemma ClosesExactly(lines: seq<string>, opens: seq<bool>, start: nat, line: nat)
    requires start < |lines| == |opens|
    ensures ClosesOn(lines, opens, start, line) <==> exists open: nat, b: nat ::
              open < |lines| && IsOpenLine(lines, opens, start, Some(open)) && '{' in lines[open]
              && Holds(lines, line, b) && Matches(Joined(lines), |Joined(lines[..open])| + BraceIn(lines[open]), b)
  {
    hide IsOpenLine, Matches, Holds, BraceIn, Joined;
    forall open: nat, b: nat | open < |lines|
      ensures ClosesFrom(lines, open, line, b) <==>
        '{' in lines[open] && Holds(lines, line, b)
        && Matches(Joined(lines), |Joined(lines[..open])| + BraceIn(lines[open]), b)
    {
    }
    hide ClosesFrom;
  }

  // The end is right behind the line that closes the open block, if that is at or below start, and the end of
  // the file if there is no such line.
  lemma ScanEndExactly(lines: seq<string>, opens: seq<bool>, start: nat, end: nat)
    requires start < |lines| == |opens|
    ensures IsScanEnd(lines, opens, start, end) <==>
      || (start < end && ClosesOn(lines, opens, start, end - 1))
      || (end == |lines| && forall other: nat :: start <= other ==> !ClosesOn(lines, opens, start, other))
  {
    hide ClosesOn;
  }

  lemma MatchOnce(text: string, a: nat, b: nat, c: nat)
    requires Matches(text, a, b) && Matches(text, a, c)
    ensures b == c
  {
    FirstReturnIsMatch(text, a, b);
    FirstReturnIsMatch(text, a, c);
  }

  lemma OpenLineOnce(lines: seq<string>, opens: seq<bool>, start: nat, at: Option<nat>, other: Option<nat>)
    requires start < |lines| == |opens| && IsOpenLine(lines, opens, start, at) && IsOpenLine(lines, opens, start, other)
    ensures at == other
  {
  }

  // There is one such line at most.
  lemma ClosesOnce(lines: seq<string>, opens: seq<bool>, start: nat, open: nat, line: nat, b: nat, other: nat)
    requires start < |lines| == |opens| && open < |lines| && IsOpenLine(lines, opens, start, Some(open))
    requires ClosesFrom(lines, open, line, b) && ClosesOn(lines, opens, start, other)
    ensures line == other
  {
    var o: nat, c: nat :| o < |lines| && IsOpenLine(lines, opens, start, Some(o)) && ClosesFrom(lines, o, other, c);
    OpenLineOnce(lines, opens, start, Some(open), Some(o));
    MatchOnce(Joined(lines), FirstBrace(lines, open), b, c);
    HeldOnce(lines, line, other, b);
  }

  lemma NeverCloses(lines: seq<string>, opens: seq<bool>, start: nat, open: Option<nat>)
    requires start < |lines| == |opens| && IsOpenLine(lines, opens, start, open)
    requires open.Some? ==> open.value < |lines| && IsUnclosed(lines, open.value)
    ensures forall line: nat :: !ClosesOn(lines, opens, start, line)
  {
  }

  // _resolve_forward_scan_end_heuristic
  method HeuristicScanEnd(lines: seq<string>, opens: seq<bool>, start: nat) returns (end: nat)
    requires start < |lines| == |opens|
    ensures start < end <= |lines|
    ensures IsScanEnd(lines, opens, start, end)
  {
    var open := FindBlockOpenLine(lines, opens, start);
    end := |lines|;
    if open.Some? {
      var close := BlockClose(lines, open.value);
      if close.Some? {
        ghost var line: nat, b: nat :| close.value == line + 1 && ClosesFrom(lines, open.value, line, b);
        assert ClosesOn(lines, opens, start, line);
        if close.value > start { return close.value; }
        forall other: nat | ClosesOn(lines, opens, start, other) ensures other < start {
          ClosesOnce(lines, opens, start, open.value, line, b, other);
        }
      } else {
        NeverCloses(lines, opens, start, open);
      }
    } else {
      NeverCloses(lines, opens, start, open);
    }
  }

  // resolve_forward_scan_end, with the end the syntax tree gives, if it gives one.
  method ForwardScanEnd(lines: seq<string>, opens: seq<bool>, start: int, treeEnd: Option<int>) returns (end: int)
    requires start < |lines| == |opens|
    ensures start < end
    ensures start < 0 ==> end == |lines|
    ensures start >= 0 && treeEnd.Some? && treeEnd.value > start ==> end == treeEnd.value
    ensures start >= 0 && !(treeEnd.Some? && treeEnd.value > start) ==>
              end <= |lines| && IsScanEnd(lines, opens, start, end)
  {
    if start < 0 { return |lines|; }
    if treeEnd.Some? && treeEnd.value > start { return treeEnd.value; }
    end := HeuristicScanEnd(lines, opens, start);
  }
}
