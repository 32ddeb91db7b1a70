/** Partition preservation for CSV tables with a slug column (apatch/csv_scope.py), over parsed rows. */
module CsvScope {
  import opened Common

  type Row = seq<string>

  // A table with its header first.
  type Table = seq<Row>

  datatype Verdict =
    | Accepted
    | UnreadableSource
    | InvalidReplacement
    | HeaderChanged
    | MissingSlug
    | Removed(slugs: set<string>)
    | ChangedUnrelated(slugs: set<string>)

  const SLUG := "slug"

  // The string strips to nothing.
  predicate IsBlank(s: string) {
    forall i :: 0 <= i < |s| ==> IsSpace(s[i])
  }

  // ---------- Partitions ----------

  predicate HasSlug(row: Row, index: nat) {
    index < |row| && !IsBlank(row[index])
  }

  predicate IsPartitioned(t: Table) {
    t != [] && SLUG in t[0]
  }

  // list.index
  function IndexOf(header: Row, name: string): (i: nat)
    requires name in header
    ensures i < |header| && header[i] == name && forall j :: 0 <= j < i ==> header[j] != name
  {
    if header[0] == name then 0 else IndexOf(header[1..], name) + 1
  }

  predicate AllHaveSlugs(rows: seq<Row>, index: nat) {
    forall i :: 0 <= i < |rows| && rows[i] != [] ==> HasSlug(rows[i], index)
  }

  // The rows of one slug, with their multiplicities.
  function Partition(rows: seq<Row>, index: nat, slug: string): multiset<Row> {
    if rows == [] then multiset{}
    else
      var last := rows[|rows| - 1];
      Partition(rows[..|rows| - 1], index, slug)
        + if index < |last| && last[index] == slug then multiset{last} else multiset{}
  }

  // Each row of the slug as often as it occurs, and no others.
  lemma {:induction false} PartitionCounts(rows: seq<Row>, index: nat, slug: string, row: Row)
    ensures Partition(rows, index, slug)[row] == if index < |row| && row[index] == slug then multiset(rows)[row] else 0
  {
    if rows != [] {
      PartitionCounts(rows[..|rows| - 1], index, slug, row);
      assert rows == rows[..|rows| - 1] + [rows[|rows| - 1]];
    }
  }

  // The slugs a complete replacement record declares.
  function Declared(fragment: seq<Row>, header: Row, index: nat): set<string> {
    set row | row in fragment && |row| == |header| && row != header && HasSlug(row, index) :: row[index]
  }

  predicate GroupAt(groups: map<string, multiset<Row>>, rows: seq<Row>, index: nat, slug: string) {
    && (slug in groups <==> Partition(rows, index, slug) != multiset{})
    && (slug in groups ==> groups[slug] == Partition(rows, index, slug))
  }

  ghost predicate GroupsOf(groups: map<string, multiset<Row>>, rows: seq<Row>, index: nat) {
    forall slug :: GroupAt(groups, rows, index, slug)
  }

  // ---------- The check ----------

  // The rule: retained header, slugs everywhere, no partition removed, and with a declared scope no
  // partition outside it changed.
  ghost predicate Respects(before: Table, after: Table, fragment: seq<Row>)
    requires IsPartitioned(before)
  {
    var header, index := before[0], IndexOf(before[0], SLUG);
    && after != [] && after[0] == header
    && AllHaveSlugs(before[1..], index) && AllHaveSlugs(after[1..], index)
    && forall slug :: Partition(before[1..], index, slug) != multiset{} ==>
         && Partition(after[1..], index, slug) != multiset{}
         && (Declared(fragment, header, index) != {} && slug !in Declared(fragment, header, index)
             ==> Partition(after[1..], index, slug) == Partition(before[1..], index, slug))
  }

  lemma PartitionSnoc(rows: seq<Row>, row: Row, index: nat, slug: string)
    ensures Partition(rows + [row], index, slug)
         == Partition(rows, index, slug) + if index < |row| && row[index] == slug then multiset{row} else multiset{}
  {
    assert (rows + [row])[..|rows|] == rows;
  }

  lemma AllHaveSlugsSnoc(rows: seq<Row>, row: Row, index: nat)
    ensures AllHaveSlugs(rows + [row], index) <==> AllHaveSlugs(rows, index) && (row == [] || HasSlug(row, index))
  {
    assert (rows + [row])[|rows|] == row;
    if AllHaveSlugs(rows + [row], index) {
      assert forall i :: 0 <= i < |rows| ==> (rows + [row])[i] == rows[i];
    }
  }

  function Counted(groups: map<string, multiset<Row>>, row: Row, slug: string): map<string, multiset<Row>> {
    groups[slug := (if slug in groups then groups[slug] else multiset{}) + multiset{row}]
  }

  lemma GroupsSnoc(groups: map<string, multiset<Row>>, rows: seq<Row>, row: Row, index: nat, slug: string)
    requires GroupAt(groups, rows, index, slug) && index < |row|
    ensures GroupAt(Counted(groups, row, row[index]), rows + [row], index, slug)
  {
    PartitionSnoc(rows, row, index, slug);
    assert row in Partition(rows, index, slug) + multiset{row};
  }

  lemma GroupsMeaning(groups: map<string, multiset<Row>>, rows: seq<Row>, index: nat)
    requires GroupsOf(groups, rows, index)
    ensures forall slug :: slug in groups <==> Partition(rows, index, slug) != multiset{}
    ensures forall slug :: slug in groups ==> groups[slug] == Partition(rows, index, slug)
  {
    forall slug
      ensures slug in groups <==> Partition(rows, index, slug) != multiset{}
    {
      assert GroupAt(groups, rows, index, slug);
    }
    forall slug | slug in groups
      ensures groups[slug] == Partition(rows, index, slug)
    {
      assert GroupAt(groups, rows, index, slug);
    }
  }

  method Groups(rows: seq<Row>, index: nat) returns (groups: Option<map<string, multiset<Row>>>)
    ensures groups.Some? <==> AllHaveSlugs(rows, index)
    ensures groups.Some? ==> GroupsOf(groups.value, rows, index)
  {
    var result: map<string, multiset<Row>> := map[];
    for i := 0 to |rows|
      invariant AllHaveSlugs(rows[..i], index) && GroupsOf(result, rows[..i], index)
    {
      var row := rows[i];
      var upto := rows[..i + 1];
      assert upto == rows[..i] + [row];
      AllHaveSlugsSnoc(rows[..i], row, index);
      forall slug ensures row == [] ==> GroupAt(result, upto, index, slug) {
        PartitionSnoc(rows[..i], row, index, slug);
        assert GroupAt(result, rows[..i], index, slug);
      }
      if row == [] { continue; }
      if |row| <= index || IsBlank(row[index]) {
        assert rows[i] == row;
        return None;
      }
      var counted := Counted(result, row, row[index]);
      forall slug ensures GroupAt(counted, upto, index, slug) {
        assert GroupAt(result, rows[..i], index, slug);
        GroupsSnoc(result, rows[..i], row, index, slug);
      }
      var counter := if row[index] in result then result[row[index]] else multiset{};
      result := result[row[index] := counter + multiset{row}];
    }
    assert rows[..|rows|] == rows;
    groups := Some(result);
  }

  predicate LacksSlug(before: Table, after: Table)
    requires IsPartitioned(before) && after != []
  {
    var index := IndexOf(before[0], SLUG);
    before[0] == after[0] && !(AllHaveSlugs(before[1..], index) && AllHaveSlugs(after[1..], index))
  }

  predicate IsGone(before: Table, after: Table, slug: string)
    requires IsPartitioned(before) && after != []
  {
    var index := IndexOf(before[0], SLUG);
    Partition(before[1..], index, slug) != multiset{} && Partition(after[1..], index, slug) == multiset{}
  }

  predicate IsHurt(before: Table, after: Table, declared: set<string>, slug: string)
    requires IsPartitioned(before) && after != []
  {
    var index := IndexOf(before[0], SLUG);
    declared != {} && slug !in declared && Partition(before[1..], index, slug) != multiset{}
    && Partition(after[1..], index, slug) != Partition(before[1..], index, slug)
  }

  // The replacement is of a partitioned table and everything is readable.
  predicate IsChecked(isCsv: bool, before: Option<Table>, after: Option<Table>, fragment: Option<seq<Row>>) {
    isCsv && before.Some? && IsPartitioned(before.value) && after.Some? && fragment.Some?
  }

  // validate_csv_replacement
  method ValidateReplacement(isCsv: bool, before: Option<Table>, after: Option<Table>, fragment: Option<seq<Row>>)
      returns (v: Verdict)
    ensures v == UnreadableSource <==> isCsv && before.None?
    ensures v == InvalidReplacement
       <==> isCsv && before.Some? && IsPartitioned(before.value) && (after.None? || fragment.None?)
    ensures v == Accepted <==> (!isCsv || (before.Some? && !IsPartitioned(before.value))
                                || (IsChecked(isCsv, before, after, fragment)
                                    && Respects(before.value, after.value, fragment.value)))
    ensures v == HeaderChanged
       <==> IsChecked(isCsv, before, after, fragment) && (after.value == [] || after.value[0] != before.value[0])
    ensures v == MissingSlug
       <==> IsChecked(isCsv, before, after, fragment) && after.value != [] && LacksSlug(before.value, after.value)
    ensures v.Removed? || v.ChangedUnrelated? ==> IsChecked(isCsv, before, after, fragment) && after.value != []
    ensures v.Removed? ==> v.slugs != {} && forall slug :: slug in v.slugs <==> IsGone(before.value, after.value, slug)
    ensures v.ChangedUnrelated? ==> forall slug :: !IsGone(before.value, after.value, slug)
    ensures v.ChangedUnrelated? ==> v.slugs != {} && forall slug :: slug in v.slugs <==>
              IsHurt(before.value, after.value,
                     Declared(fragment.value, before.value[0], IndexOf(before.value[0], SLUG)), slug)
  {
    if !isCsv { return Accepted; }
    if before.None? { return UnreadableSource; }
    if before.value == [] || SLUG !in before.value[0] { return Accepted; }
    var header := before.value[0];
    var index := IndexOf(header, SLUG);
    if after.None? || fragment.None? { return InvalidReplacement; }
    if after.value == [] || after.value[0] != header { return HeaderChanged; }
    var was := Groups(before.value[1..], index);
    if was.None? { return MissingSlug; }
    var now := Groups(after.value[1..], index);
    if now.None? { return MissingSlug; }
    GroupsMeaning(was.value, before.value[1..], index);
    GroupsMeaning(now.value, after.value[1..], index);
    v := Compare(was.value, now.value, Declared(fragment.value, header, index));
  }

  method Compare(before: map<string, multiset<Row>>, after: map<string, multiset<Row>>, scope: set<string>)
      returns (v: Verdict)
    ensures v == Accepted || v.Removed? || v.ChangedUnrelated?
    ensures v == Accepted <==> forall slug :: slug in before ==>
              slug in after && (scope != {} && slug !in scope ==> before[slug] == after[slug])
    ensures v.Removed? ==> v.slugs == before.Keys - after.Keys && v.slugs != {}
    ensures v.ChangedUnrelated? ==> v.slugs != {} && scope != {} && before.Keys <= after.Keys
    ensures v.ChangedUnrelated? ==>
              forall slug :: slug in v.slugs <==> slug in before && slug !in scope && before[slug] != after[slug]
  {
    var missing := before.Keys - after.Keys;
    if missing != {} {
      var gone :| gone in missing;
      return Removed(missing);
    }
    assert forall slug :: slug in before ==> slug in after by {
      forall slug | slug in before ensures slug in after { assert slug !in missing; }
    }
    if scope != {} {
      var changed := set slug | slug in before.Keys - scope && before[slug] != after[slug] :: slug;
      if changed != {} {
        var bad :| bad in changed;
        return ChangedUnrelated(changed);
      }
      assert forall slug :: slug in before && slug !in scope ==> slug !in changed;
    }
    v := Accepted;
  }

  // ---------- The verdicts, on the rows themselves ----------

  // Some row has the slug.
  ghost predicate Occurs(rows: seq<Row>, index: nat, slug: string) {
    exists row :: row in rows && index < |row| && row[index] == slug
  }

  // Both tables have the same rows of the slug, each as often.
  ghost predicate Same(a: seq<Row>, b: seq<Row>, index: nat, slug: string) {
    forall row :: row in a + b && index < |row| && row[index] == slug ==> multiset(a)[row] == multiset(b)[row]
  }

  // A row that is not empty has no slug, or one of white space only.
  ghost predicate SlugIsMissing(rows: seq<Row>, index: nat) {
    exists row :: row in rows && row != [] && (index < |row| ==> forall c :: c in row[index] ==> IsSpace(c))
  }

  lemma OccursExactly(rows: seq<Row>, index: nat, slug: string)
    ensures Partition(rows, index, slug) != multiset{} <==> Occurs(rows, index, slug)
  {
    if Partition(rows, index, slug) != multiset{} {
      var row :| row in Partition(rows, index, slug);
      PartitionCounts(rows, index, slug, row);
    }
    if row :| row in rows && index < |row| && row[index] == slug {
      PartitionCounts(rows, index, slug, row);
      assert row in Partition(rows, index, slug);
    }
  }

  lemma SameExactly(a: seq<Row>, b: seq<Row>, index: nat, slug: string)
    ensures Partition(a, index, slug) == Partition(b, index, slug) <==> Same(a, b, index, slug)
  {
    hide Partition;
    var p, q := Partition(a, index, slug), Partition(b, index, slug);
    if p == q {
      forall row | row in a + b && index < |row| && row[index] == slug ensures multiset(a)[row] == multiset(b)[row] {
        PartitionCounts(a, index, slug, row);
        PartitionCounts(b, index, slug, row);
      }
    }
    if Same(a, b, index, slug) {
      forall row ensures p[row] == q[row] {
        PartitionCounts(a, index, slug, row);
        PartitionCounts(b, index, slug, row);
        assert row in a + b || (row !in multiset(a) && row !in multiset(b));
      }
    }
  }

  lemma MissingExactly(rows: seq<Row>, index: nat)
    ensures AllHaveSlugs(rows, index) <==> !SlugIsMissing(rows, index)
  {
    if i :| 0 <= i < |rows| && rows[i] != [] && !HasSlug(rows[i], index) { assert rows[i] in rows; }
    if row :| row in rows && row != [] && (index < |row| ==> forall c :: c in row[index] ==> IsSpace(c)) {
      var i :| 0 <= i < |rows| && rows[i] == row;
      assert index < |row| ==> forall j :: 0 <= j < |row[index]| ==> row[index][j] in row[index];
    }
  }

  // A slug is declared iff a record as long as the header, but not the header, carries it.
  lemma DeclaredExactly(fragment: seq<Row>, header: Row, index: nat, slug: string)
    ensures slug in Declared(fragment, header, index) <==>
      && (exists c :: c in slug && !IsSpace(c))
      && exists row :: row in fragment && |row| == |header| && row != header && index < |row| && row[index] == slug
  {
    if c :| c in slug && !IsSpace(c) {
      var i :| 0 <= i < |slug| && slug[i] == c;
    }
  }

  // What each verdict says about the rows of both tables.
  lemma VerdictsExactly(before: Table, after: Table, fragment: seq<Row>, slug: string)
    requires IsPartitioned(before) && after != []
    ensures var index, was, now := IndexOf(before[0], SLUG), before[1..], after[1..];
      var declared := Declared(fragment, before[0], index);
      && (IsGone(before, after, slug) <==> Occurs(was, index, slug) && !Occurs(now, index, slug))
      && (IsHurt(before, after, declared, slug) <==>
            declared != {} && slug !in declared && Occurs(was, index, slug) && !Same(was, now, index, slug))
      && (LacksSlug(before, after) <==>
            before[0] == after[0] && (SlugIsMissing(was, index) || SlugIsMissing(now, index)))
      && (Respects(before, after, fragment) <==>
            && after[0] == before[0] && !SlugIsMissing(was, index) && !SlugIsMissing(now, index)
            && forall s :: Occurs(was, index, s) ==>
                 Occurs(now, index, s) && (declared != {} && s !in declared ==> Same(was, now, index, s)))
  {
    var index, was, now := IndexOf(before[0], SLUG), before[1..], after[1..];
    MissingExactly(was, index);
    MissingExactly(now, index);
    OccursExactly(was, index, slug);
    OccursExactly(now, index, slug);
    SameExactly(was, now, index, slug);
    forall s
      ensures Partition(was, index, s) != multiset{} <==> Occurs(was, index, s)
      ensures Partition(now, index, s) != multiset{} <==> Occurs(now, index, s)
      ensures Partition(now, index, s) == Partition(was, index, s) <==> Same(was, now, index, s)
    {
      OccursExactly(was, index, s);
      OccursExactly(now, index, s);
      SameExactly(was, now, index, s);
    }
    hide Occurs, Same, Partition, SlugIsMissing, AllHaveSlugs, Declared, IndexOf;
  }

  // ---------- Runs of accepted replacements ----------

  ghost predicate IsRun(tables: seq<Table>, fragments: seq<seq<Row>>) {
    && |tables| == |fragments| + 1 && IsPartitioned(tables[0])
    && forall i :: 0 <= i < |fragments| ==> IsPartitioned(tables[i]) && Respects(tables[i], tables[i + 1], fragments[i])
  }

  function RowsOf(tables: seq<Table>, i: nat, slug: string): multiset<Row>
    requires i < |tables| && IsPartitioned(tables[i])
  {
    Partition(tables[i][1..], IndexOf(tables[i][0], SLUG), slug)
  }

  // The header never changes, and no partition ever disappears.
  lemma {:induction false} NoPartitionDisappears(tables: seq<Table>, fragments: seq<seq<Row>>, n: nat, slug: string)
    requires IsRun(tables, fragments) && n < |tables|
    ensures IsPartitioned(tables[n]) && tables[n][0] == tables[0][0]
    ensures RowsOf(tables, 0, slug) != multiset{} ==> RowsOf(tables, n, slug) != multiset{}
  {
    if n > 0 {
      NoPartitionDisappears(tables, fragments, n - 1, slug);
      assert Respects(tables[n - 1], tables[n - 1 + 1], fragments[n - 1]);
    }
  }

  // Step i declares a scope, and the slug is not in it.
  ghost predicate LeavesOut(tables: seq<Table>, fragments: seq<seq<Row>>, i: nat, slug: string)
    requires i < |tables| && i < |fragments| && IsPartitioned(tables[i])
  {
    var declared := Declared(fragments[i], tables[i][0], IndexOf(tables[i][0], SLUG));
    declared != {} && slug !in declared
  }

  // A partition that is there and that no step of the run declares keeps its rows.
  lemma {:induction false} UndeclaredPartitionIsKept(tables: seq<Table>, fragments: seq<seq<Row>>, n: nat, slug: string)
    requires IsRun(tables, fragments) && n < |tables|
    requires forall i :: 0 <= i < n ==> LeavesOut(tables, fragments, i, slug)
    requires RowsOf(tables, 0, slug) != multiset{}
    ensures IsPartitioned(tables[n]) && RowsOf(tables, n, slug) == RowsOf(tables, 0, slug)
  {
    hide Partition, Declared, AllHaveSlugs, IndexOf;
    NoPartitionDisappears(tables, fragments, n, slug);
    if n > 0 {
      UndeclaredPartitionIsKept(tables, fragments, n - 1, slug);
      assert Respects(tables[n - 1], tables[n - 1 + 1], fragments[n - 1]);
      assert LeavesOut(tables, fragments, n - 1, slug);
    }
  }

  // A row of a new slug is accepted under every declaration.
  lemma NewPartitionNeedsNoDeclaration(before: Table, fragment: seq<Row>, row: Row)
    requires IsPartitioned(before) && AllHaveSlugs(before[1..], IndexOf(before[0], SLUG))
    requires HasSlug(row, IndexOf(before[0], SLUG))
    requires Partition(before[1..], IndexOf(before[0], SLUG), row[IndexOf(before[0], SLUG)]) == multiset{}
    ensures Respects(before, before + [row], fragment)
    ensures Partition((before + [row])[1..], IndexOf(before[0], SLUG), row[IndexOf(before[0], SLUG)]) == multiset{row}
  {
    hide Partition, AllHaveSlugs, HasSlug, Declared, IndexOf;
    var index, after := IndexOf(before[0], SLUG), before + [row];
    assert after[1..] == before[1..] + [row] && after[0] == before[0];
    AllHaveSlugsSnoc(before[1..], row, index);
    HasSlugLength(row, index);
    PartitionSnoc(before[1..], row, index, row[index]);
    forall slug | Partition(before[1..], index, slug) != multiset{}
      ensures Partition(after[1..], index, slug) == Partition(before[1..], index, slug)
    {
      PartitionSnoc(before[1..], row, index, slug);
    }
  }

  lemma HasSlugLength(row: Row, index: nat)
    requires HasSlug(row, index)
    ensures index < |row|
  {
  }

  lemma NoBlankPartition(rows: seq<Row>, index: nat, slug: string)
    requires AllHaveSlugs(rows, index) && IsBlank(slug)
    ensures Partition(rows, index, slug) == multiset{}
  {
    forall row ensures Partition(rows, index, slug)[row] == 0 {
      PartitionCounts(rows, index, slug, row);
      if row in multiset(rows) {
        var i :| 0 <= i < |rows| && rows[i] == row;
        assert rows[i] != [] ==> HasSlug(rows[i], index);
      }
    }
    assert forall row :: row !in Partition(rows, index, slug);
  }

  // A run from t that never declares slug and changes its rows.
  ghost predicate ChangesUndeclared(t: Table, tables: seq<Table>, fragments: seq<seq<Row>>, slug: string)
    requires IsPartitioned(t)
  {
    && IsRun(tables, fragments) && tables[0] == t
    && (forall i :: 0 <= i < |fragments| ==> LeavesOut(tables, fragments, i, slug))
    && var last := tables[|tables| - 1];
       IsPartitioned(last) && Partition(last[1..], IndexOf(last[0], SLUG), slug) != RowsOf(tables, 0, slug)
  }

  // What escapes every declaration is exactly a partition that was not there: some accepted run that
  // never declares the slug changes its rows iff the table is readable and has none.
  lemma UndeclaredChangeExactly(t: Table, slug: string)
    requires IsPartitioned(t)
    ensures (exists tables, fragments :: ChangesUndeclared(t, tables, fragments, slug))
       <==> (var index := IndexOf(t[0], SLUG);
             AllHaveSlugs(t[1..], index) && !IsBlank(slug) && Partition(t[1..], index, slug) == multiset{})
  {
    var index := IndexOf(t[0], SLUG);
    if tables, fragments :| ChangesUndeclared(t, tables, fragments, slug) {
      OnlyNewChanges(t, tables, fragments, slug);
    }
    hide ChangesUndeclared, Partition, AllHaveSlugs, IsBlank, IndexOf;
    if AllHaveSlugs(t[1..], index) && !IsBlank(slug) && Partition(t[1..], index, slug) == multiset{} {
      var tables, fragments := NewChange(t, slug);
    }
  }

  lemma NewChange(t: Table, slug: string) returns (tables: seq<Table>, fragments: seq<seq<Row>>)
    requires IsPartitioned(t) && !IsBlank(slug) && AllHaveSlugs(t[1..], IndexOf(t[0], SLUG))
    requires Partition(t[1..], IndexOf(t[0], SLUG), slug) == multiset{}
    ensures ChangesUndeclared(t, tables, fragments, slug)
  {
    var row: Row := seq(|t[0]|, _ => slug);
    var fragment := OtherDeclaration(t[0], slug);
    NewPartitionNeedsNoDeclaration(t, fragment, row);
    OneStepRun(t, t + [row], fragment);
    hide Partition, Respects, Declared, AllHaveSlugs, IsBlank, IsRun;
    tables, fragments := [t, t + [row]], [fragment];
    assert LeavesOut(tables, fragments, 0, slug);
    assert tables[1] == t + [row] && (t + [row])[0] == t[0];
  }

  lemma OneStepRun(before: Table, after: Table, fragment: seq<Row>)
    requires IsPartitioned(before) && Respects(before, after, fragment)
    ensures IsRun([before, after], [fragment])
  {
    hide Respects;
  }

  lemma OnlyNewChanges(t: Table, tables: seq<Table>, fragments: seq<seq<Row>>, slug: string)
    requires IsPartitioned(t) && ChangesUndeclared(t, tables, fragments, slug)
    ensures var index := IndexOf(t[0], SLUG);
      AllHaveSlugs(t[1..], index) && !IsBlank(slug) && Partition(t[1..], index, slug) == multiset{}
  {
    var n, index := |fragments|, IndexOf(t[0], SLUG);
    assert Respects(tables[0], tables[0 + 1], fragments[0]);
    assert Respects(tables[n - 1], tables[n - 1 + 1], fragments[n - 1]);
    NoPartitionDisappears(tables, fragments, n, slug);
    if IsBlank(slug) {
      NoPartitionDisappears(tables, fragments, n - 1, slug);
      NoBlankPartition(t[1..], index, slug);
      NoBlankPartition(tables[n][1..], index, slug);
    }
    if RowsOf(tables, 0, slug) != multiset{} { UndeclaredPartitionIsKept(tables, fragments, n, slug); }
  }

  // A fragment that declares some other slug only.
  lemma OtherDeclaration(header: Row, slug: string) returns (fragment: seq<Row>)
    requires SLUG in header && !IsBlank(slug)
    ensures Declared(fragment, header, IndexOf(header, SLUG)) == {slug + "x"}
  {
    var index := IndexOf(header, SLUG);
    var row: Row := seq(|header|, _ => slug + "x");
    assert (slug + "x")[|slug|] == 'x' && !IsBlank(slug + "x");
    fragment := [row];
    assert row in fragment;
    assert SLUG[3] == 'g';
  }
}
