/** Shifting and inserting numbered sections in a Markdown text (apatch/doc_outline.py). */
module OutlineText {
  import opened Common
  import opened Decimal
  import opened DocOutline

  // ---------- Numbering ----------

  // The first outline number of a heading of the level.
  function Number(line: string, level: nat): Option<int> {
    if EntryOf(line).Some? && EntryOf(line).value.level == level then Some(EntryOf(line).value.first) else None
  }

  // The numbers of the headings of a level, from the top.
  function Numbers(lines: seq<string>, level: nat): seq<int> {
    if lines == [] then []
    else
      var before, n := Numbers(lines[..|lines| - 1], level), Number(lines[|lines| - 1], level);
      if n.Some? then before + [n.value] else before
  }

  // from, from + 1, ..., to - 1
  function Count(from: int, to: int): seq<int>
    requires from <= to
  {
    seq(to - from, i => from + i)
  }

  function RenumberFrom(lines: seq<string>, start: nat, delta: int, levels: set<nat>): (renumbered: seq<string>)
    ensures |renumbered| == |lines|
  {
    seq(|lines|, i requires 0 <= i < |lines| => if i < start then lines[i] else RenumberLine(lines[i], delta, levels))
  }

  function InsertAt(lines: seq<string>, at: nat, block: seq<string>): seq<string>
    requires at <= |lines|
  {
    lines[..at] + block + lines[at..]
  }

  lemma NumberAfter(line: string, delta: int, levels: set<nat>, level: nat)
    requires level in levels && delta >= 0
    ensures Number(RenumberLine(line, delta, levels), level)
         == if Number(line, level).Some? then Some(Number(line, level).value + delta) else None
  {
    hide RenumberLine, EntryOf, Write, IsEntry;
    RenumberIsWrite(line, delta, levels);
    if EntryOf(line).Some? && EntryOf(line).value.level in levels {
      EntryIsEntry(line);
      WrittenReadsBack(Shifted(EntryOf(line).value, delta));
    }
  }

  lemma {:induction false} NumbersOfJoined(a: seq<string>, b: seq<string>, level: nat)
    ensures Numbers(a + b, level) == Numbers(a, level) + Numbers(b, level)
    decreases |b|
  {
    hide Number, RenumberLine;
    if b == [] {
      assert a + b == a;
    } else {
      NumbersOfJoined(a, b[..|b| - 1], level);
      assert (a + b)[..|a + b| - 1] == a + b[..|b| - 1];
    }
  }

  // b is a with delta added to every number.
  ghost predicate IsRaised(a: seq<int>, b: seq<int>, delta: int) {
    |a| == |b| && forall i :: 0 <= i < |a| ==> b[i] == a[i] + delta
  }

  lemma {:induction false} NumbersRaised(lines: seq<string>, delta: int, levels: set<nat>, level: nat)
    requires level in levels && delta >= 0
    ensures IsRaised(Numbers(lines, level), Numbers(RenumberFrom(lines, 0, delta, levels), level), delta)
  {
    hide Number, RenumberLine;
    if lines != [] {
      var rest, last := lines[..|lines| - 1], lines[|lines| - 1];
      NumbersRaised(rest, delta, levels, level);
      NumberAfter(last, delta, levels, level);
      assert RenumberFrom(lines, 0, delta, levels)[..|lines| - 1] == RenumberFrom(rest, 0, delta, levels);
    }
  }

  // The inserted text: lines above, block, and the renumbered lines from the anchor on.
  function Inserted(lines: seq<string>, at: nat, block: seq<string>, delta: int, levels: set<nat>): seq<string>
    requires at <= |lines|
  {
    InsertAt(RenumberFrom(lines, at, delta, levels), at, block)
  }

  lemma InsertedParts(lines: seq<string>, at: nat, block: seq<string>, delta: int, levels: set<nat>)
    requires at <= |lines|
    ensures Inserted(lines, at, block, delta, levels)
            == lines[..at] + block + RenumberFrom(lines[at..], 0, delta, levels)
  {
    assert RenumberFrom(lines, at, delta, levels)[..at] == lines[..at];
    assert RenumberFrom(lines, at, delta, levels)[at..] == RenumberFrom(lines[at..], 0, delta, levels);
  }

  // Inserting section k before the heading numbered k turns the numbering 1..n into 1..n + 1.
  lemma InsertingKeepsNumbering(lines: seq<string>, at: nat, block: seq<string>, levels: set<nat>, level: nat, n: nat,
                                k: int)
    requires at < |lines| && level in levels
    requires Numbers(lines, level) == Count(1, n + 1) && Number(lines[at], level) == Some(k)
             && Numbers(block, level) == [k]
    ensures Numbers(Inserted(lines, at, block, 1, levels), level) == Count(1, n + 2)
  {
    hide Number, RenumberLine;
    var above, below := lines[..at], lines[at..];
    var shifted := RenumberFrom(below, 0, 1, levels);
    InsertedParts(lines, at, block, 1, levels);
    NumbersOfJoined(above + block, shifted, level);
    NumbersOfJoined(above, block, level);
    NumbersRaised(below, 1, levels, level);
    assert lines == above + below;
    NumbersOfJoined(above, below, level);
    FirstNumber(below, level);
    SplitCount(Numbers(above, level), Numbers(below, level), n, k);
    JoinCount(Numbers(above, level), Numbers(shifted, level), n, k);
  }

  lemma FirstNumber(lines: seq<string>, level: nat)
    requires lines != [] && Number(lines[0], level).Some?
    ensures Numbers(lines, level) != [] && Numbers(lines, level)[0] == Number(lines[0], level).value
  {
    hide Number, RenumberLine;
    NumbersOfJoined(lines[..1], lines[1..], level);
    assert lines == lines[..1] + lines[1..];
    assert Numbers(lines[..1], level) == [Number(lines[0], level).value] by { assert lines[..1][..0] == []; }
  }

  lemma SplitCount(a: seq<int>, b: seq<int>, n: nat, k: int)
    requires a + b == Count(1, n + 1) && b != [] && b[0] == k
    ensures 1 <= k <= n && a == Count(1, k) && b == Count(k, n + 1)
  {
    assert (a + b)[|a|] == k;
    assert k == |a| + 1;
    forall i | 0 <= i < |a| ensures a[i] == i + 1 { assert (a + b)[i] == a[i]; }
    forall i | 0 <= i < |b| ensures b[i] == k + i { assert (a + b)[|a| + i] == b[i]; }
  }

  lemma JoinCount(a: seq<int>, b: seq<int>, n: nat, k: int)
    requires 1 <= k <= n && a == Count(1, k) && IsRaised(Count(k, n + 1), b, 1)
    ensures a + [k] + b == Count(1, n + 2)
  {
  }

  // ---------- Subsections ----------

  // Every numbered subsection below a numbered section carries its number.
  ghost predicate Nested(lines: seq<string>) {
    forall i :: 0 <= i < |lines| ==> NestedAt(lines, i)
  }

  predicate NestedAt(lines: seq<string>, i: nat)
    requires i < |lines|
  {
    var above := Numbers(lines[..i], 2);
    Number(lines[i], 3).Some? && above != [] ==> Number(lines[i], 3).value == above[|above| - 1]
  }

  // A block that is one section: its heading first, and subsections of that number only.
  ghost predicate IsSection(block: seq<string>, k: int) {
    && block != [] && Number(block[0], 2) == Some(k) && Numbers(block, 2) == [k]
    && forall i :: 0 <= i < |block| && Number(block[i], 3).Some? ==> Number(block[i], 3).value == k
  }

  lemma OneLevel(line: string, level: nat, other: nat)
    ensures Number(line, level).Some? && Number(line, other).Some? ==> level == other
  {
  }

  lemma LastOfSection(block: seq<string>, k: int, i: nat)
    requires IsSection(block, k) && 0 < i <= |block|
    ensures Numbers(block[..i], 2) == [k]
  {
    hide Number, RenumberLine;
    assert block == block[..i] + block[i..];
    NumbersOfJoined(block[..i], block[i..], 2);
    FirstNumber(block[..i], 2);
  }

  lemma NestedBelow(lines: seq<string>, at: nat, delta: int, levels: set<nat>, above: seq<string>, i: nat)
    requires at < |lines| && {2, 3} <= levels && delta >= 0
    requires Nested(lines) && Number(lines[at], 2).Some? && i < |lines| - at
    ensures NestedAt(above + RenumberFrom(lines[at..], 0, delta, levels), |above| + i)
  {
    hide Number, RenumberLine, Numbers;
    var below, shifted := lines[at..], RenumberFrom(lines[at..], 0, delta, levels);
    var all := above + shifted;
    NumberAfter(below[i], delta, levels, 3);
    assert all[|above| + i] == shifted[i] && shifted[i] == RenumberLine(below[i], delta, levels);
    assert all[..|above| + i] == above + shifted[..i];
    NumbersOfJoined(above, shifted[..i], 2);
    assert shifted[..i] == RenumberFrom(below[..i], 0, delta, levels);
    NumbersRaised(below[..i], delta, levels, 2);
    assert lines[..at + i] == lines[..at] + below[..i];
    NumbersOfJoined(lines[..at], below[..i], 2);
    assert NestedAt(lines, at + i);
    OneLevel(below[0], 2, 3);
    if i > 0 { FirstNumber(below[..i], 2); }
  }

  // Inserting a section and shifting sections and subsections together keeps every subsection with
  // the number of its section.
  lemma InsertingKeepsNesting(lines: seq<string>, at: nat, block: seq<string>, delta: int, levels: set<nat>, k: int)
    requires at < |lines| && {2, 3} <= levels && delta >= 0
    requires Nested(lines) && Number(lines[at], 2).Some? && IsSection(block, k)
    ensures Nested(Inserted(lines, at, block, delta, levels))
  {
    hide Number, RenumberLine;
    var all := Inserted(lines, at, block, delta, levels);
    InsertedParts(lines, at, block, delta, levels);
    forall j | 0 <= j < |all| ensures NestedAt(all, j) {
      if j < at {
        assert all[..j] == lines[..j] && all[j] == lines[j];
        assert NestedAt(lines, j);
      } else if j < at + |block| {
        NestedInBlock(lines[..at], block, RenumberFrom(lines[at..], 0, delta, levels), k, j - at);
      } else {
        NestedBelow(lines, at, delta, levels, lines[..at] + block, j - at - |block|);
      }
    }
  }

  lemma NestedInBlock(above: seq<string>, block: seq<string>, below: seq<string>, k: int, i: nat)
    requires IsSection(block, k) && i < |block|
    ensures NestedAt(above + block + below, |above| + i)
  {
    hide Number, RenumberLine;
    var all := above + block + below;
    assert all[|above| + i] == block[i];
    assert all[..|above| + i] == above + block[..i];
    NumbersOfJoined(above, block[..i], 2);
    OneLevel(block[0], 2, 3);
    if i > 0 { LastOfSection(block, k, i); }
  }

  // ---------- Lines of a text ----------

  // The last line lengthened.
  function Longer(lines: seq<string>, more: string): seq<string>
    requires lines != []
  {
    lines[..|lines| - 1] + [lines[|lines| - 1] + more]
  }

  // text.split("\n")
  function Lines(text: string): (lines: seq<string>)
    ensures lines != [] && forall i :: 0 <= i < |lines| ==> '\n' !in lines[i]
    ensures text != "" && text[|text| - 1] == '\n' ==> |lines| > 1 && lines[|lines| - 1] == ""
  {
    if text == "" then [""]
    else
      var before, c := Lines(text[..|text| - 1]), text[|text| - 1];
      if c == '\n' then before + [""] else Longer(before, [c])
  }

  // "\n".join(lines)
  function Join(lines: seq<string>): string {
    if lines == [] then ""
    else if |lines| == 1 then lines[0]
    else Join(lines[..|lines| - 1]) + "\n" + lines[|lines| - 1]
  }

  // text.replace("\r\n", "\n")
  function Normalized(text: string): string {
    if text == "" then ""
    else if |text| > 1 && text[0] == '\r' && text[1] == '\n' then "\n" + Normalized(text[2..])
    else [text[0]] + Normalized(text[1..])
  }

  lemma {:induction false} JoinOfLines(text: string)
    ensures Join(Lines(text)) == text
  {
    if text != "" {
      hide Join, Longer;
      var rest, c := text[..|text| - 1], text[|text| - 1];
      assert text == rest + [c];
      JoinOfLines(rest);
      if c == '\n' {
        JoinSnoc(Lines(rest), "");
        assert rest + "\n" + "" == text;
      } else {
        JoinLonger(Lines(rest), [c]);
      }
    }
  }

  lemma JoinLonger(lines: seq<string>, more: string)
    requires lines != []
    ensures Join(Longer(lines, more)) == Join(lines) + more
  {
    var longer := Longer(lines, more);
    assert longer[..|longer| - 1] == lines[..|lines| - 1];
    if |lines| > 1 { Assoc(Join(lines[..|lines| - 1]) + "\n", lines[|lines| - 1], more); }
  }

  lemma LinesOfChar(text: string, c: char)
    requires c != '\n'
    ensures Lines(text + [c]) == Longer(Lines(text), [c])
  {
    assert (text + [c])[..|text|] == text;
  }

  lemma LongerTwice(lines: seq<string>, a: string, b: string)
    requires lines != []
    ensures Longer(Longer(lines, a), b) == Longer(lines, a + b)
  {
    Assoc(lines[|lines| - 1], a, b);
    assert Longer(lines, a)[..|lines| - 1] == lines[..|lines| - 1];
  }

  lemma LongerByNothing(lines: seq<string>)
    requires lines != []
    ensures Longer(lines, "") == lines
  {
    assert lines[|lines| - 1] + "" == lines[|lines| - 1];
  }

  lemma {:induction false} LinesOfLonger(text: string, line: string)
    requires '\n' !in line
    ensures Lines(text + line) == Longer(Lines(text), line)
    decreases |line|
  {
    hide Lines, Longer;
    if line == "" {
      assert text + line == text;
      LongerByNothing(Lines(text));
    } else {
      var rest, c := line[..|line| - 1], line[|line| - 1];
      assert line == rest + [c];
      LinesOfLonger(text, rest);
      LinesOfChar(text + rest, c);
      Assoc(text, rest, [c]);
      LongerTwice(Lines(text), rest, [c]);
    }
  }

  lemma LinesOfBreak(text: string)
    ensures Lines(text + "\n") == Lines(text) + [""]
  {
    assert (text + "\n")[..|text|] == text;
  }

  lemma JoinSnoc(lines: seq<string>, last: string)
    requires lines != []
    ensures Join(lines + [last]) == Join(lines) + "\n" + last
  {
    assert (lines + [last])[..|lines|] == lines;
  }

  lemma LinesOfLine(line: string)
    requires '\n' !in line
    ensures Lines(line) == [line]
  {
    LinesOfLonger("", line);
    assert "" + line == line;
  }

  // Splitting what was joined gives the lines back.
  lemma {:induction false} LinesOfJoin(lines: seq<string>)
    requires lines != [] && forall i :: 0 <= i < |lines| ==> '\n' !in lines[i]
    ensures Lines(Join(lines)) == lines
  {
    var rest, last := lines[..|lines| - 1], lines[|lines| - 1];
    assert lines == rest + [last];
    if rest == [] {
      LinesOfLine(last);
    } else {
      LinesOfJoin(rest);
      JoinSnoc(rest, last);
      LinesOfBreak(Join(rest));
      LinesOfLonger(Join(rest) + "\n", last);
      assert "" + last == last;
    }
  }

  lemma TitleInLine(line: string, c: char)
    requires ParseHeading(line).Some? && c in ParseHeading(line).value.title
    ensures c in line
  {
    var rest := line[HashRun(line)..];
    var from := if Spaces(rest) < |rest| then Spaces(rest) else Spaces(rest) - 1;
    assert ParseHeading(line).value.title <= rest[from..];
    assert c in rest[from..];
  }

  lemma ShowHasNoBreak(n: int)
    ensures '\n' !in Show(n)
  {
    var digits := ShowNat(if n < 0 then -n else n);
  }

  lemma RenumberKeepsLine(line: string, delta: int, levels: set<nat>)
    requires '\n' !in line
    ensures '\n' !in RenumberLine(line, delta, levels)
  {
    RenumberIsWrite(line, delta, levels);
    if EntryOf(line).Some? && EntryOf(line).value.level in levels {
      var e := EntryOf(line).value;
      ShowHasNoBreak(e.first + delta);
      EntryInLine(line, '\n');
      WriteChars(Shifted(e, delta));
    }
  }

  lemma EntryInLine(line: string, c: char)
    requires EntryOf(line).Some? && c !in line
    ensures c !in EntryOf(line).value.prefix && c !in EntryOf(line).value.rest
  {
    var t := ParseHeading(line).value.title;
    HeadingTitle(line);
    if Trim(t) == t {
      SplitReads(t);
      var e := EntryOf(line).value;
      if c in e.prefix || c in e.rest {
        assert c in t;
        TitleInLine(line, c);
      }
    }
  }

  lemma WriteChars(e: Entry)
    requires '\n' !in e.prefix && '\n' !in Show(e.first) && '\n' !in e.rest
    ensures '\n' !in Write(e)
  {
  }

  // ---------- The operations on a text ----------

  predicate Contains(line: string, needle: string) {
    exists i :: 0 <= i <= |line| && needle <= line[i..]
  }

  ghost predicate IsFirst(lines: seq<string>, at: nat, needle: string, headings: bool) {
    && at < |lines| && Contains(lines[at], needle) && (headings ==> ParseHeading(lines[at]).Some?)
    && forall i :: 0 <= i < at && Contains(lines[i], needle) ==> headings && ParseHeading(lines[i]).None?
  }

  // The first heading that contains the needle; failing that, the first line.
  ghost predicate IsAnchor(lines: seq<string>, needle: string, at: Option<nat>) {
    if at.None? then needle == "" || forall i :: 0 <= i < |lines| ==> !Contains(lines[i], needle)
    else
      && needle != ""
      && (IsFirst(lines, at.value, needle, true)
          || (IsFirst(lines, at.value, needle, false)
              && forall i :: 0 <= i < |lines| && Contains(lines[i], needle) ==> ParseHeading(lines[i]).None?))
  }

  // find_anchor_index; nothing for its errors.
  method FindAnchor(lines: seq<string>, anchor: string) returns (at: Option<nat>)
    ensures IsAnchor(lines, Trim(anchor), at)
  {
    hide ParseHeading, Trim, Contains;
    var needle := Trim(anchor);
    if needle == "" { return None; }
    for i := 0 to |lines|
      invariant forall j :: 0 <= j < i && Contains(lines[j], needle) ==> ParseHeading(lines[j]).None?
    {
      if Contains(lines[i], needle) && ParseHeading(lines[i]).Some? { return Some(i); }
    }
    for i := 0 to |lines|
      invariant forall j :: 0 <= j < i ==> !Contains(lines[j], needle)
    {
      if Contains(lines[i], needle) { return Some(i); }
    }
    at := None;
  }

  method RenumberLines(lines: seq<string>, start: nat, delta: int, levels: set<nat>) returns (renumbered: seq<string>)
    ensures renumbered == RenumberFrom(lines, start, delta, levels)
  {
    hide RenumberLine;
    renumbered := lines;
    var i := start;
    while i < |lines|
      invariant start <= i && |renumbered| == |lines|
      invariant forall j :: 0 <= j < |lines| ==>
                  renumbered[j] == if start <= j < i then RenumberLine(lines[j], delta, levels) else lines[j]
    {
      renumbered := renumbered[i := RenumberLine(renumbered[i], delta, levels)];
      i := i + 1;
    }
  }

  predicate EndsInBreak(text: string) {
    text != "" && text[|text| - 1] == '\n'
  }

  // The lines of an inserted block, its final line break being optional.
  function BlockLines(text: string): seq<string> {
    var lines := Lines(if text == "" || EndsInBreak(text) then text else text + "\n");
    if lines[|lines| - 1] == "" then lines[..|lines| - 1] else lines
  }

  ghost predicate AreLines(lines: seq<string>) {
    lines != [] && forall i :: 0 <= i < |lines| ==> '\n' !in lines[i]
  }

  lemma RenumberedLines(lines: seq<string>, start: nat, delta: int, levels: set<nat>)
    requires AreLines(lines)
    ensures AreLines(RenumberFrom(lines, start, delta, levels))
    ensures lines[|lines| - 1] == "" ==> RenumberFrom(lines, start, delta, levels)[|lines| - 1] == ""
  {
    forall i | 0 <= i < |lines| ensures '\n' !in RenumberFrom(lines, start, delta, levels)[i] {
      RenumberKeepsLine(lines[i], delta, levels);
    }
  }

  // Joined lines end in a break iff the last of several lines is empty.
  predicate EndsEmpty(lines: seq<string>) {
    |lines| > 1 && lines[|lines| - 1] == ""
  }

  lemma JoinEndsInBreak(lines: seq<string>)
    requires AreLines(lines)
    ensures EndsInBreak(Join(lines)) <==> EndsEmpty(lines)
  {
    var rest, last := lines[..|lines| - 1], lines[|lines| - 1];
    assert lines == rest + [last];
    if rest != [] { JoinSnoc(rest, last); }
    if last != "" { assert last[|last| - 1] in last; }
  }

  // "\n".join(lines), with a final line break where the original has one: an empty line is added iff
  // there is none at the end.
  method Rejoin(original: string, lines: seq<string>) returns (text: string)
    requires AreLines(lines)
    ensures Lines(text) == if EndsInBreak(original) && !EndsEmpty(lines) then lines + [""] else lines
    ensures EndsInBreak(text) <==> EndsInBreak(original) || EndsEmpty(lines)
  {
    text := Join(lines);
    LinesOfJoin(lines);
    JoinEndsInBreak(lines);
    if EndsInBreak(original) && !EndsInBreak(text) {
      LinesOfBreak(text);
      text := text + "\n";
    }
  }

  datatype Shift = Shift(levels: set<nat>, delta: int)

  function ShiftedLines(lines: seq<string>, at: nat, shift: Option<Shift>): (shifted: seq<string>)
    ensures |shifted| == |lines|
  {
    if shift.Some? then RenumberFrom(lines, at, shift.value.delta, shift.value.levels) else lines
  }

  // The lines of the text are those of the content, shifted from the anchor on, with the block before it.
  ghost predicate IsInsertion(content: string, section: string, shift: Option<Shift>, at: nat, text: string)
    requires at < |Lines(Normalized(content))|
  {
    Lines(text) == InsertAt(ShiftedLines(Lines(Normalized(content)), at, shift), at, BlockLines(Normalized(section)))
  }

  // insert_section_in_text; without a shift, insert_before_in_text.
  method InsertSection(content: string, before: string, section: string, shift: Option<Shift>)
    returns (text: Option<string>, ghost at: Option<nat>)
    ensures IsAnchor(Lines(Normalized(content)), Trim(before), at) && (text.Some? <==> at.Some?)
    ensures text.Some? ==>
              at.value < |Lines(Normalized(content))| && IsInsertion(content, section, shift, at.value, text.value)
    ensures text.Some? && EndsInBreak(Normalized(content)) ==> EndsInBreak(text.value)
  {
    hide RenumberLine, ParseHeading, Trim, Lines, Normalized, Join;
    var normalized := Normalized(content);
    var lines := Lines(normalized);
    var found := FindAnchor(lines, before);
    at := found;
    if found.None? { return None, at; }
    var idx := found.value;
    ghost var was := lines;
    if shift.Some? {
      RenumberedLines(lines, idx, shift.value.delta, shift.value.levels);
      lines := RenumberLines(lines, idx, shift.value.delta, shift.value.levels);
    }
    var block := BlockLines(Normalized(section));
    lines := lines[..idx] + block + lines[idx..];
    var joined := Rejoin(normalized, lines);
    text := Some(joined);
  }

  // shift_outline_in_text
  method ShiftOutline(content: string, after: string, levels: set<nat>, delta: int, includeAnchor: bool)
    returns (text: Option<string>, ghost at: Option<nat>)
    ensures IsAnchor(Lines(Normalized(content)), Trim(after), at)
    ensures text.None? <==> levels == {} || (delta != 0 && at.None?)
    ensures text.Some? && delta == 0 ==> text.value == content
    ensures text.Some? && delta != 0 ==>
              Lines(text.value) == RenumberFrom(Lines(Normalized(content)),
                                                if includeAnchor then at.value else at.value + 1, delta, levels)
    ensures text.Some? && delta != 0 && EndsInBreak(Normalized(content)) ==> EndsInBreak(text.value)
  {
    hide RenumberLine, ParseHeading, Trim, Lines, Normalized, Join;
    var normalized := Normalized(content);
    var lines := Lines(normalized);
    var found := FindAnchor(lines, after);
    at := found;
    if levels == {} { return None, at; }
    if delta == 0 { return Some(content), at; }
    if found.None? { return None, at; }
    var start := if includeAnchor then found.value else found.value + 1;
    RenumberedLines(lines, start, delta, levels);
    lines := RenumberLines(lines, start, delta, levels);
    var joined := Rejoin(normalized, lines);
    text := Some(joined);
  }

  // Of the text itself: sections numbered 1..n, a new one numbered as the heading it stands before, and
  // a shift by one give sections numbered 1..n + 1.
  lemma InsertedTextIsNumbered(content: string, section: string, levels: set<nat>, at: nat, text: string, level: nat,
                               n: nat, k: int)
    requires at < |Lines(Normalized(content))| && IsInsertion(content, section, Some(Shift(levels, 1)), at, text)
    requires level in levels && Numbers(Lines(Normalized(content)), level) == Count(1, n + 1)
    requires Number(Lines(Normalized(content))[at], level) == Some(k)
             && Numbers(BlockLines(Normalized(section)), level) == [k]
    ensures Numbers(Lines(text), level) == Count(1, n + 2)
  {
    hide Lines, Normalized, BlockLines, Number, RenumberLine, Numbers;
    InsertingKeepsNumbering(Lines(Normalized(content)), at, BlockLines(Normalized(section)), levels, level, n, k);
  }

  // And subsections keep the number of their section.
  lemma InsertedTextIsNested(content: string, section: string, levels: set<nat>, delta: nat, at: nat, text: string,
                             k: int)
    requires at < |Lines(Normalized(content))| && IsInsertion(content, section, Some(Shift(levels, delta)), at, text)
    requires {2, 3} <= levels && Nested(Lines(Normalized(content)))
    requires Number(Lines(Normalized(content))[at], 2).Some? && IsSection(BlockLines(Normalized(section)), k)
    ensures Nested(Lines(text))
  {
    hide Lines, Normalized, BlockLines, Number, RenumberLine, Numbers, Nested, IsSection;
    InsertingKeepsNesting(Lines(Normalized(content)), at, BlockLines(Normalized(section)), delta, levels, k);
  }

  // ---------- Line breaks ----------

  // text.replace("\r\n", "\n"): a text without a "\r\n" stays,
  lemma {:induction false} NormalizedPlain(text: string)
    requires forall i :: 0 <= i < |text| - 1 ==> !(text[i] == '\r' && text[i + 1] == '\n')
    ensures Normalized(text) == text
  {
    if text != "" {
      var rest := text[1..];
      forall i | 0 <= i < |rest| - 1 ensures !(rest[i] == '\r' && rest[i + 1] == '\n') {
        assert rest[i] == text[i + 1] && rest[i + 1] == text[i + 2];
      }
      NormalizedPlain(rest);
      assert text == [text[0]] + rest;
    }
  }

  lemma NormalizedPair(rest: string)
    ensures Normalized("\r\n" + rest) == "\n" + Normalized(rest)
  {
    assert ("\r\n" + rest)[2..] == rest;
  }

  lemma NormalizedChar(c: char, rest: string)
    requires !(c == '\r' && rest != "" && rest[0] == '\n')
    ensures Normalized([c] + rest) == [c] + Normalized(rest)
  {
    assert ([c] + rest)[1..] == rest;
  }

  // and every "\r\n" becomes "\n".
  lemma {:induction false} NormalizedBreak(a: string, b: string)
    ensures Normalized(a + ("\r\n" + b)) == Normalized(a) + ("\n" + Normalized(b))
  {
    var tail := "\r\n" + b;
    NormalizedPair(b);
    if a == "" {
      assert a + tail == tail;
      assert Normalized(a) + ("\n" + Normalized(b)) == "\n" + Normalized(b);
    } else if |a| > 1 && a[0] == '\r' && a[1] == '\n' {
      var rest := a[2..];
      assert a == "\r\n" + rest;
      hide Normalized;
      NormalizedBreak(rest, b);
      NormalizedPair(rest);
      NormalizedPair(rest + tail);
      Assoc("\r\n", rest, tail);
      Assoc("\n", Normalized(rest), "\n" + Normalized(b));
    } else {
      var rest := a[1..];
      assert a == [a[0]] + rest;
      hide Normalized;
      NormalizedBreak(rest, b);
      assert rest != "" ==> rest[0] == a[1] && (rest + tail)[0] == rest[0];
      NormalizedChar(a[0], rest);
      NormalizedChar(a[0], rest + tail);
      Assoc([a[0]], rest, tail);
      Assoc([a[0]], Normalized(rest), "\n" + Normalized(b));
    }
  }

  // An inserted block is its lines, one final break more or less making no difference.
  lemma BlockOfLines(text: string)
    ensures BlockLines("") == []
    ensures text != "" ==>
              BlockLines(text) != [] && Join(BlockLines(text)) + "\n" == if EndsInBreak(text) then text else text + "\n"
    ensures forall i :: 0 <= i < |BlockLines(text)| ==> '\n' !in BlockLines(text)[i]
  {
    if text != "" {
      var whole := if EndsInBreak(text) then text else text + "\n";
      var lines := Lines(whole);
      JoinOfLines(whole);
      SnocParts(lines);
      JoinSnoc(lines[..|lines| - 1], "");
    }
  }
}
