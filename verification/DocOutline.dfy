/** Renumbering of Markdown headings (apatch/doc_outline.py), on characters. Lines hold no line breaks;
    outline numbers are written in ASCII digits. */
module DocOutline {
  import opened Common
  import opened Decimal

  predicate IsSep(c: char) {
    c == '.' || IsSpace(c) || c == ':' || c == '-' || c == '\U{2014}' || c == '\U{2013}' || c == '\U{2009}'
  }

  const SECTION := '\U{00A7}'

  // How many characters at the start are white space, digits, or hashes.
  function Spaces(s: string): (n: nat)
    ensures n <= |s| && (n < |s| ==> !IsSpace(s[n])) && forall i :: 0 <= i < n ==> IsSpace(s[i])
  {
    if s == "" || !IsSpace(s[0]) then 0 else Spaces(s[1..]) + 1
  }

  function Digits(s: string): (n: nat)
    ensures n <= |s| && (n < |s| ==> !IsDigit(s[n])) && AllDigits(s[..n])
  {
    if s == "" || !IsDigit(s[0]) then 0 else Digits(s[1..]) + 1
  }

  function HashRun(s: string): (n: nat)
    ensures n <= |s| && (n < |s| ==> s[n] != '#') && forall i :: 0 <= i < n ==> s[i] == '#'
  {
    if s == "" || s[0] != '#' then 0 else HashRun(s[1..]) + 1
  }

  // str.rstrip
  function TrimRight(s: string): (t: string)
    ensures t <= s && (t == "" || !IsSpace(t[|t| - 1])) && (s != "" && !IsSpace(s[|s| - 1]) ==> t == s)
  {
    if s == "" || !IsSpace(s[|s| - 1]) then s else TrimRight(s[..|s| - 1])
  }

  // str.strip
  function Trim(s: string): string {
    TrimRight(s[Spaces(s)..])
  }

  // ---------- Headings ----------

  datatype Heading = Heading(level: nat, title: string)

  // One to six hashes, white space, and a title, which is taken short of trailing white space. Of a
  // blank rest the last character is the title, if another is left before it.
  function ParseHeading(line: string): (h: Option<Heading>)
    ensures h.Some? ==> 1 <= h.value.level <= 6
  {
    var level := HashRun(line);
    var rest := line[level..];
    var gap := Spaces(rest);
    if level == 0 || level > 6 || gap == 0 then None
    else if gap < |rest| then Some(Heading(level, TrimRight(rest[gap..])))
    else if gap > 1 then Some(Heading(level, rest[gap - 1..]))
    else None
  }

  // An outline number in front of a title, with what precedes and follows it.
  datatype Split = Split(prefix: string, num: string, sep: string, rest: string)

  function PrefixLength(t: string): (n: nat)
    ensures n <= |t|
  {
    if t != "" && t[0] == SECTION then 1 + Spaces(t[1..]) else Spaces(t)
  }

  // The longest run of digit groups joined by dots.
  function NumLength(s: string): (n: nat)
    ensures Digits(s) <= n <= |s|
    ensures n > Digits(s) ==> Digits(s) > 0 && s[Digits(s)] == '.'
    decreases |s|
  {
    var d := Digits(s);
    if 0 < d && d + 1 < |s| && s[d] == '.' && IsDigit(s[d + 1]) then d + 1 + NumLength(s[d + 1..]) else d
  }

  // Where the last dot is; without one, 0.
  function LastDot(s: string): (n: nat)
    ensures n <= |s| && ((n < |s| && s[n] == '.') || n == 0) && forall i :: n < i < |s| ==> s[i] != '.'
  {
    if s == "" then 0 else if s[|s| - 1] == '.' then |s| - 1 else LastDot(s[..|s| - 1])
  }

  // The whole number if a separator or nothing follows it; otherwise the number gives up its last
  // group, whose dot becomes the separator.
  function SplitNumber(prefix: string, s: string): Option<Split> {
    var n := NumLength(s);
    if Digits(s) == 0 then None
    else if n == |s| then Some(Split(prefix, s, "", ""))
    else if IsSep(s[n]) then Some(Split(prefix, s[..n], [s[n]], s[n + 1..]))
    else if n > Digits(s) then
      var dot := LastDot(s[..n]);
      Some(Split(prefix, s[..dot], ".", s[dot + 1..]))
    else None
  }

  // split_outline_title
  function SplitTitle(title: string): Option<Split> {
    var t := Trim(title);
    SplitNumber(t[..PrefixLength(t)], t[PrefixLength(t)..])
  }

  // shift_outline_num: the first group changes.
  function ShiftNum(num: string, delta: int): string {
    Show(ParseNat(num[..Digits(num)]) + delta) + num[Digits(num)..]
  }

  function Hashes(level: nat): (s: string)
    ensures |s| == level && forall i :: 0 <= i < level ==> s[i] == '#'
  {
    seq(level, i => '#')
  }

  // renumber_header_line
  function RenumberLine(line: string, delta: int, levels: set<nat>): string {
    var h := ParseHeading(line);
    if h.None? || h.value.level !in levels then line
    else
      var parsed := SplitTitle(h.value.title);
      if parsed.None? then line
      else
        var x := parsed.value;
        Hashes(h.value.level) + " " + TrimRight(x.prefix + ShiftNum(x.num, delta) + x.sep + x.rest)
  }

  // ---------- What a heading's number is ----------

  predicate IsPrefix(prefix: string) {
    prefix == "" || (prefix[0] == SECTION && forall i :: 1 <= i < |prefix| ==> IsSpace(prefix[i]))
  }

  // A title as prefix, first group and the rest of the text.
  predicate Reads(t: string, prefix: string, first: string, rest: string) {
    && t == prefix + first + rest
    && IsPrefix(prefix)
    && first != "" && AllDigits(first)
    && (rest == "" || (IsSep(rest[0]) && !IsSpace(rest[|rest| - 1])))
  }

  // A numbered heading: its level, its first number, and the text around that.
  datatype Entry = Entry(level: nat, prefix: string, first: int, rest: string)

  predicate IsEntry(e: Entry) {
    1 <= e.level <= 6 && IsPrefix(e.prefix) && (e.rest == "" || (IsSep(e.rest[0]) && !IsSpace(e.rest[|e.rest| - 1])))
  }

  function EntryOf(line: string): Option<Entry> {
    var h := ParseHeading(line);
    if h.None? then None
    else
      var parsed := SplitTitle(h.value.title);
      if parsed.None? then None
      else
        var x, d := parsed.value, Digits(parsed.value.num);
        Some(Entry(h.value.level, x.prefix, ParseNat(x.num[..d]), x.num[d..] + x.sep + x.rest))
  }

  function Shifted(e: Entry, delta: int): Entry {
    e.(first := e.first + delta)
  }

  function TitleOf(e: Entry): string {
    e.prefix + Show(e.first) + e.rest
  }

  function Write(e: Entry): string {
    Hashes(e.level) + " " + TitleOf(e)
  }

  lemma DigitIsNoSpace(c: char)
    ensures IsDigit(c) ==> !IsSpace(c) && !IsSep(c)
  {
  }

  lemma {:induction false} SpacesOf(blank: string, after: string)
    requires forall i :: 0 <= i < |blank| ==> IsSpace(blank[i])
    requires after != "" ==> !IsSpace(after[0])
    ensures Spaces(blank + after) == |blank|
  {
    if blank == "" {
      assert blank + after == after;
    } else {
      assert (blank + after)[1..] == blank[1..] + after;
      SpacesOf(blank[1..], after);
    }
  }

  lemma {:induction false} DigitsOf(first: string, after: string)
    requires AllDigits(first) && (after != "" ==> !IsDigit(after[0]))
    ensures Digits(first + after) == |first|
  {
    if first == "" {
      assert first + after == after;
    } else {
      assert (first + after)[1..] == first[1..] + after;
      DigitsOf(first[1..], after);
    }
  }

  lemma {:induction false} HashRunOf(level: nat, after: string)
    requires after != "" ==> after[0] != '#'
    ensures HashRun(Hashes(level) + after) == level
  {
    if level == 0 {
      assert Hashes(level) + after == after;
    } else {
      assert (Hashes(level) + after)[1..] == Hashes(level - 1) + after;
      HashRunOf(level - 1, after);
    }
  }

  // ---------- Reading a title ----------

  lemma {:induction false} DigitsOfPrefix(s: string, n: nat)
    requires Digits(s) <= n <= |s|
    ensures Digits(s[..n]) == Digits(s)
  {
    if s != "" && IsDigit(s[0]) {
      assert s[..n][1..] == s[1..][..n - 1];
      DigitsOfPrefix(s[1..], n - 1);
    }
  }

  lemma TrimmedEnds(t: string)
    requires Trim(t) == t
    ensures t != "" ==> !IsSpace(t[0]) && !IsSpace(t[|t| - 1])
  {
    var k := Spaces(t);
    assert |TrimRight(t[k..])| <= |t[k..]|;
  }

  lemma TrimKeeps(t: string)
    requires t != "" ==> !IsSpace(t[0]) && !IsSpace(t[|t| - 1])
    ensures Trim(t) == t && TrimRight(t) == t
  {
    assert t[0..] == t;
  }

  lemma CutOut(s: string, d: nat, n: nat)
    requires d <= n < |s|
    ensures s[..n][d..] + [s[n]] + s[n + 1..] == s[d..]
  {
  }

  // The split x takes the first d characters of s as the first group and keeps the rest.
  predicate Cuts(x: Split, prefix: string, s: string, d: nat)
    requires d <= |s|
  {
    x.prefix == prefix && Digits(x.num) == d && x.num[..d] == s[..d] && x.num[d..] + x.sep + x.rest == s[d..]
  }

  lemma CutsAt(prefix: string, s: string, n: nat, sep: string)
    requires Digits(s) <= n < |s| && sep == [s[n]]
    ensures Cuts(Split(prefix, s[..n], sep, s[n + 1..]), prefix, s, Digits(s))
  {
    DigitsOfPrefix(s, n);
    CutOut(s, Digits(s), n);
    assert s[..n][..Digits(s)] == s[..Digits(s)];
  }

  lemma LastDotBehind(s: string, d: nat)
    requires d < |s| && s[d] == '.'
    ensures d <= LastDot(s) < |s| && s[LastDot(s)] == '.'
  {
  }

  lemma CutsAll(prefix: string, s: string)
    ensures Cuts(Split(prefix, s, "", ""), prefix, s, Digits(s))
  {
    assert s[Digits(s)..] + "" + "" == s[Digits(s)..];
  }

  lemma CutsAtDot(prefix: string, s: string, n: nat, dot: nat)
    requires Digits(s) <= dot < n <= |s| && s[..n][dot] == '.'
    ensures Cuts(Split(prefix, s[..dot], ".", s[dot + 1..]), prefix, s, Digits(s))
  {
    assert [s[dot]] == ".";
    CutsAt(prefix, s, dot, ".");
  }

  lemma SplitAtDot(prefix: string, s: string)
    requires 0 < Digits(s) < NumLength(s) < |s| && !IsSep(s[NumLength(s)])
    ensures SplitNumber(prefix, s).Some? && Cuts(SplitNumber(prefix, s).value, prefix, s, Digits(s))
  {
    hide LastDot, Digits, NumLength, Cuts, IsSpace;
    var n := NumLength(s);
    LastDotBehind(s[..n], Digits(s));
    CutsAtDot(prefix, s, n, LastDot(s[..n]));
  }

  lemma SplitAtSep(prefix: string, s: string)
    requires 0 < Digits(s) && NumLength(s) < |s| && IsSep(s[NumLength(s)])
    ensures SplitNumber(prefix, s).Some? && Cuts(SplitNumber(prefix, s).value, prefix, s, Digits(s))
  {
    hide LastDot, Digits, NumLength, Cuts, IsSpace, IsSep;
    CutsAt(prefix, s, NumLength(s), [s[NumLength(s)]]);
  }

  lemma SplitWhole(prefix: string, s: string)
    requires 0 < Digits(s) && NumLength(s) == |s|
    ensures SplitNumber(prefix, s).Some? && Cuts(SplitNumber(prefix, s).value, prefix, s, Digits(s))
  {
    CutsAll(prefix, s);
  }

  // However the number is cut off, the first group and the text around it are the same: a number is
  // read exactly when a separator or nothing follows the first group.
  lemma SplitExactly(prefix: string, s: string)
    ensures SplitNumber(prefix, s).Some? <==> Digits(s) > 0 && (Digits(s) == |s| || IsSep(s[Digits(s)]))
    ensures SplitNumber(prefix, s).Some? ==> Cuts(SplitNumber(prefix, s).value, prefix, s, Digits(s))
  {
    hide Digits, NumLength, Cuts;
    var n := NumLength(s);
    if n > Digits(s) { assert IsSep(s[Digits(s)]); }
    if Digits(s) == 0 {
    } else if n == |s| {
      SplitWhole(prefix, s);
    } else if IsSep(s[n]) {
      SplitAtSep(prefix, s);
    } else if n > Digits(s) {
      SplitAtDot(prefix, s);
    }
  }

  lemma ThreeParts(t: string, p: nat, d: nat)
    requires p + d <= |t|
    ensures t == t[..p] + t[p..][..d] + t[p..][d..]
    ensures t[p..][d..] != "" ==> t[p..][d..][|t| - p - d - 1] == t[|t| - 1]
  {
  }

  lemma TextReads(t: string)
    requires t != "" ==> !IsSpace(t[0]) && !IsSpace(t[|t| - 1])
    requires var s := t[PrefixLength(t)..]; Digits(s) > 0 && (Digits(s) == |s| || IsSep(s[Digits(s)]))
    ensures var s := t[PrefixLength(t)..]; Reads(t, t[..PrefixLength(t)], s[..Digits(s)], s[Digits(s)..])
  {
    hide Digits, IsSpace, PrefixLength, IsPrefix;
    PrefixIs(t);
    ThreeParts(t, PrefixLength(t), Digits(t[PrefixLength(t)..]));
  }

  lemma SplitReads(t: string)
    requires Trim(t) == t && SplitTitle(t).Some?
    ensures var x := SplitTitle(t).value; var d := Digits(x.num);
      Reads(t, x.prefix, x.num[..d], x.num[d..] + x.sep + x.rest)
  {
    TrimmedEnds(t);
    SplitExactly(t[..PrefixLength(t)], t[PrefixLength(t)..]);
    TextReads(t);
  }

  lemma PrefixIs(t: string)
    requires t != "" ==> !IsSpace(t[0])
    ensures IsPrefix(t[..PrefixLength(t)])
  {
  }

  lemma PrefixOf(prefix: string, after: string)
    requires IsPrefix(prefix) && after != "" && !IsSpace(after[0]) && after[0] != SECTION
    ensures PrefixLength(prefix + after) == |prefix|
  {
    if prefix != "" {
      assert (prefix + after)[1..] == prefix[1..] + after;
      SpacesOf(prefix[1..], after);
    } else {
      assert prefix + after == after;
    }
  }

  lemma ReadsTrimmed(t: string, prefix: string, first: string, rest: string)
    requires Reads(t, prefix, first, rest)
    ensures t != "" && !IsSpace(t[0]) && !IsSpace(t[|t| - 1]) && Trim(t) == t
  {
    DigitIsNoSpace(first[0]);
    DigitIsNoSpace(first[|first| - 1]);
    TrimKeeps(t);
  }

  // A title that reads so is split so.
  lemma ReadsSplit(t: string, prefix: string, first: string, rest: string)
    requires Reads(t, prefix, first, rest)
    ensures Trim(t) == t && SplitTitle(t).Some?
    ensures var x := SplitTitle(t).value;
      x.prefix == prefix && x.num[..Digits(x.num)] == first && x.num[Digits(x.num)..] + x.sep + x.rest == rest
  {
    ReadsTrimmed(t, prefix, first, rest);
    assert t == prefix + (first + rest);
    DigitIsNoSpace(first[0]);
    PrefixOf(prefix, first + rest);
    if rest != "" { DigitIsNoSpace(rest[0]); }
    DigitsOf(first, rest);
    SplitExactly(prefix, first + rest);
    assert t[..|prefix|] == prefix && t[|prefix|..] == first + rest;
  }

  // ---------- Renumbering a line ----------

  lemma BlankBefore(t: string)
    requires t != "" && !IsSpace(t[0])
    ensures Spaces(" " + t) == 1
  {
    SpacesOf(" ", t);
  }

  lemma HeadingReads(level: nat, t: string)
    requires 1 <= level <= 6 && t != "" && !IsSpace(t[0]) && !IsSpace(t[|t| - 1])
    ensures ParseHeading(Hashes(level) + " " + t) == Some(Heading(level, t))
  {
    hide Spaces, HashRun, Hashes, Trim, TrimRight, IsSpace;
    var line := Hashes(level) + " " + t;
    assert line == Hashes(level) + (" " + t);
    HashRunOf(level, " " + t);
    assert line[level..] == " " + t;
    BlankBefore(t);
    assert (" " + t)[1..] == t;
    TrimKeeps(t);
  }

  lemma HeadingTitle(line: string)
    requires ParseHeading(line).Some?
    ensures var t := ParseHeading(line).value.title; Trim(t) == t || Trim(t) == ""
  {
    var rest := line[HashRun(line)..];
    var gap := Spaces(rest);
    var t := ParseHeading(line).value.title;
    if gap < |rest| {
      assert TrimRight(rest[gap..]) != "" ==> t[0] == rest[gap];
      TrimKeeps(t);
    } else {
      assert t == [rest[gap - 1]];
      assert Spaces(t) == 1;
    }
  }

  // A numbered heading is an entry.
  lemma EntryIsEntry(line: string)
    requires EntryOf(line).Some?
    ensures IsEntry(EntryOf(line).value) && EntryOf(line).value.first >= 0
  {
    var t := ParseHeading(line).value.title;
    HeadingTitle(line);
    if Trim(t) == t { SplitReads(t); }
  }

  lemma Regroup(a: string, b: string, c: string, d: string, e: string)
    ensures a + (b + c) + d + e == a + b + (c + d + e)
  {
  }

  // What renumbering puts behind the hashes is the title of the shifted entry.
  lemma ShiftedTitle(x: Split, level: nat, delta: int)
    ensures var d := Digits(x.num);
      var e := Entry(level, x.prefix, ParseNat(x.num[..d]), x.num[d..] + x.sep + x.rest);
      x.prefix + ShiftNum(x.num, delta) + x.sep + x.rest == TitleOf(Shifted(e, delta))
  {
    hide Digits, ParseNat, Show;
    var d := Digits(x.num);
    Regroup(x.prefix, Show(ParseNat(x.num[..d]) + delta), x.num[d..], x.sep, x.rest);
  }

  // Renumbering rewrites the entry of a line of one of the levels and leaves every other line alone.
  lemma RenumberIsWrite(line: string, delta: int, levels: set<nat>)
    ensures var e := EntryOf(line);
      RenumberLine(line, delta, levels)
      == if e.Some? && e.value.level in levels then Write(Shifted(e.value, delta)) else line
  {
    hide ParseHeading, SplitTitle, ShiftNum, TitleOf, TrimRight, Digits, ParseNat, Show, Hashes, IsPrefix;
    if EntryOf(line).Some? {
      EntryIsEntry(line);
      ShiftedTitle(SplitTitle(ParseHeading(line).value.title).value, ParseHeading(line).value.level, delta);
      TitleTrimmed(Shifted(EntryOf(line).value, delta));
    }
  }

  lemma ShowEnds(n: int)
    ensures Show(n) != "" && !IsSpace(Show(n)[0]) && Show(n)[0] != SECTION && !IsSpace(Show(n)[|Show(n)| - 1])
    ensures n < 0 ==> Show(n)[0] == '-'
  {
    var digits := ShowNat(if n < 0 then -n else n);
    DigitIsNoSpace(digits[0]);
    DigitIsNoSpace(digits[|digits| - 1]);
    assert Show(n)[|Show(n)| - 1] == digits[|digits| - 1];
  }

  lemma TitleTrimmed(e: Entry)
    requires IsEntry(e)
    ensures var t := TitleOf(e); t != "" && !IsSpace(t[0]) && !IsSpace(t[|t| - 1]) && Trim(t) == t && TrimRight(t) == t
  {
    ShowEnds(e.first);
    var t := TitleOf(e);
    assert t[0] == if e.prefix != "" then e.prefix[0] else Show(e.first)[0];
    assert t[|t| - 1] == if e.rest != "" then e.rest[|e.rest| - 1] else Show(e.first)[|Show(e.first)| - 1];
    TrimKeeps(t);
  }

  lemma NoNumber(prefix: string, after: string)
    requires IsPrefix(prefix) && after != "" && !IsSpace(after[0]) && after[0] != SECTION && !IsDigit(after[0])
    requires Trim(prefix + after) == prefix + after
    ensures SplitTitle(prefix + after) == None
  {
    PrefixOf(prefix, after);
    assert (prefix + after)[|prefix|..] == after;
  }

  lemma WrittenIsRead(e: Entry)
    requires IsEntry(e) && e.first >= 0
    ensures EntryOf(Write(e)) == Some(e)
  {
    TitleTrimmed(e);
    HeadingReads(e.level, TitleOf(e));
    ReadsSplit(TitleOf(e), e.prefix, ShowNat(e.first), e.rest);
    ParseShow(e.first);
  }

  lemma WrittenIsLost(e: Entry)
    requires IsEntry(e) && e.first < 0
    ensures EntryOf(Write(e)) == None
  {
    TitleTrimmed(e);
    HeadingReads(e.level, TitleOf(e));
    ShowEnds(e.first);
    Assoc(e.prefix, Show(e.first), e.rest);
    NoNumber(e.prefix, Show(e.first) + e.rest);
  }

  // Writing and reading back: an entry survives exactly while its number is not negative. A heading
  // with a negative number is no numbered heading any more.
  lemma WrittenReadsBack(e: Entry)
    requires IsEntry(e)
    ensures EntryOf(Write(e)) == if e.first >= 0 then Some(e) else None
  {
    if e.first >= 0 { WrittenIsRead(e); } else { WrittenIsLost(e); }
  }

  lemma WriteInjective(e: Entry, first: int)
    requires Write(e) == Write(e.(first := first))
    ensures e.first == first
  {
    var a, b := Write(e), Write(e.(first := first));
    var from := e.level + 1 + |e.prefix|;
    assert |a| == from + |Show(e.first)| + |e.rest| && |b| == from + |Show(first)| + |e.rest|;
    assert a[from..|a| - |e.rest|] == Show(e.first);
    assert b[from..|b| - |e.rest|] == Show(first);
    ShowInjective(e.first, first);
  }

  lemma ShiftTwice(e: Entry, a: int, b: int, levels: set<nat>)
    requires IsEntry(e) && e.level in levels
    ensures RenumberLine(Write(Shifted(e, a)), b, levels)
            == if e.first + a >= 0 then Write(Shifted(e, a + b)) else Write(Shifted(e, a))
  {
    WrittenReadsBack(Shifted(e, a));
    RenumberIsWrite(Write(Shifted(e, a)), b, levels);
    assert Shifted(Shifted(e, a), b) == Shifted(e, a + b);
  }

  lemma WriteOnce(e: Entry, a: int, b: int)
    ensures Write(Shifted(e, a)) == Write(Shifted(e, b)) <==> a == b
  {
    if Write(Shifted(e, a)) == Write(Shifted(e, b)) { WriteInjective(Shifted(e, a), e.first + b); }
  }

  lemma ComposeWritten(e: Entry, a: int, b: int, levels: set<nat>, once: string, both: string)
    requires IsEntry(e) && e.level in levels
    requires once == Write(Shifted(e, a)) && both == Write(Shifted(e, a + b))
    ensures RenumberLine(once, b, levels) == both <==> e.first + a >= 0 || b == 0
  {
    ShiftTwice(e, a, b, levels);
    WriteOnce(e, a, a + b);
  }

  predicate IsShifted(line: string, levels: set<nat>) {
    EntryOf(line).Some? && EntryOf(line).value.level in levels
  }

  lemma RenumberEntry(line: string, e: Entry, delta: int, levels: set<nat>) returns (renumbered: string)
    requires EntryOf(line) == Some(e) && e.level in levels
    ensures renumbered == RenumberLine(line, delta, levels) && renumbered == Write(Shifted(e, delta))
  {
    RenumberIsWrite(line, delta, levels);
    renumbered := RenumberLine(line, delta, levels);
  }

  lemma ComposeShifted(line: string, e: Entry, a: int, b: int, levels: set<nat>)
    requires EntryOf(line) == Some(e) && e.level in levels
    ensures RenumberLine(RenumberLine(line, a, levels), b, levels) == RenumberLine(line, a + b, levels)
       <==> e.first + a >= 0 || b == 0
  {
    hide *;
    EntryIsEntry(line);
    var once := RenumberEntry(line, e, a, levels);
    var both := RenumberEntry(line, e, a + b, levels);
    ComposeWritten(e, a, b, levels, once, both);
  }

  lemma ComposeOther(line: string, a: int, b: int, levels: set<nat>)
    requires !IsShifted(line, levels)
    ensures RenumberLine(RenumberLine(line, a, levels), b, levels) == line == RenumberLine(line, a + b, levels)
  {
    RenumberIsWrite(line, a, levels);
    RenumberIsWrite(line, b, levels);
    RenumberIsWrite(line, a + b, levels);
  }

  // Renumbering by a and then by b is renumbering by a + b, exactly unless the number in between is
  // negative: then the second step finds no number to change.
  lemma ShiftsCompose(line: string, a: int, b: int, levels: set<nat>)
    ensures RenumberLine(RenumberLine(line, a, levels), b, levels) == RenumberLine(line, a + b, levels)
       <==> (IsShifted(line, levels) ==> EntryOf(line).value.first + a >= 0 || b == 0)
  {
    if IsShifted(line, levels) {
      ComposeShifted(line, EntryOf(line).value, a, b, levels);
    } else {
      ComposeOther(line, a, b, levels);
    }
  }
}
