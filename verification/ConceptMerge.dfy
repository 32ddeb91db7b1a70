/** Human-confirmed concept merges and the collapse of the concept graph (apatch/concept_merge.py).

    A merge map sends a dropped concept to the one that replaces it; nothing stops a human from
    recording merges in a circle. Collapsing folds every concept into its survivor. */
module ConceptMerge {

  type MergeMap = map<string, string>

  // A parsed relation; `note` stands for its remaining fields, Raw for anything else in the list.
  datatype Relation = Edge(rel: string, to: string, note: string) | Raw(text: string) {
    // `isinstance(rel, dict) and rel.get("to")`
    predicate Refers() {
      Edge? && to != ""
    }
  }

  // Aliases, absorbed ids and claim subjects are sets: the code sorts them and drops repetitions.
  datatype Concept = Concept(name: string, aliases: set<string>, realizedBy: seq<string>, relations: seq<Relation>,
                             absorbed: set<string>)

  // `ids` is the insertion order of the concepts dictionary.
  datatype Graph = Graph(ids: seq<string>, concepts: map<string, Concept>, claims: map<string, set<string>>)

  ghost predicate IsGraph(g: Graph) {
    && (forall c :: c in g.ids <==> c in g.concepts)
    && Distinct(g.ids)
  }

  ghost predicate Distinct(path: seq<string>) {
    forall i, j :: 0 <= i < j < |path| ==> path[i] != path[j]
  }

  // ---------- Survivors ----------

  // Where the walk from cid stops when the concepts of `path` have been seen already.
  function SurvivorAfter(mm: MergeMap, path: seq<string>, cid: string): string
    decreases mm.Keys - set x | x in path
  {
    if cid in mm && cid !in path then
      assert cid in mm.Keys - (set x | x in path);
      SurvivorAfter(mm, path + [cid], mm[cid])
    else cid
  }

  function Survivor(mm: MergeMap, cid: string): string {
    SurvivorAfter(mm, [], cid)
  }

  method FindSurvivor(start: string, mm: MergeMap) returns (cid: string)
    ensures cid == Survivor(mm, start)
  {
    cid := start;
    var seen: set<string> := {};
    ghost var path := [];
    while cid in mm && cid !in seen
      invariant seen <= mm.Keys && forall x :: x in seen <==> x in path
      invariant SurvivorAfter(mm, path, cid) == Survivor(mm, start)
      decreases mm.Keys - seen
    {
      seen := seen + {cid};
      path := path + [cid];
      cid := mm[cid];
    }
  }

  // path[0] -> path[1] -> ... -> next, following merges.
  ghost predicate IsWalk(mm: MergeMap, path: seq<string>, next: string) {
    && (forall i :: 0 <= i < |path| ==> path[i] in mm)
    && (forall i :: 0 < i < |path| ==> mm[path[i - 1]] == path[i])
    && (path != [] ==> mm[path[|path| - 1]] == next)
  }

  // Going round a cycle comes back to where it was entered.
  lemma {:induction false} CycleReturns(mm: MergeMap, path: seq<string>, i: nat)
    requires path != [] && Distinct(path) && IsWalk(mm, path, path[0]) && i < |path|
    ensures SurvivorAfter(mm, path[..i], path[i]) == path[0]
    decreases |path| - i
  {
    assert path[i] !in path[..i];
    assert path[..i] + [path[i]] == path[..i + 1];
    if i + 1 < |path| {
      CycleReturns(mm, path, i + 1);
    } else {
      assert path[..i + 1] == path;
    }
  }

  lemma {:induction false} WalkSurvives(mm: MergeMap, path: seq<string>, cid: string)
    requires Distinct(path) && IsWalk(mm, path, cid)
    ensures var s := SurvivorAfter(mm, path, cid); Survivor(mm, s) == s
    decreases mm.Keys - set x | x in path
  {
    if cid in mm && cid !in path {
      assert cid in mm.Keys - (set x | x in path);
      WalkSurvives(mm, path + [cid], mm[cid]);
    } else if cid in mm {
      var j :| 0 <= j < |path| && path[j] == cid;
      var cycle := path[j..];
      assert forall i :: 0 <= i < |cycle| ==> cycle[i] == path[j + i];
      CycleReturns(mm, cycle, 0);
      assert cycle[..0] == [];
    }
  }

  // Surviving is idempotent, whether or not merges run in circles.
  lemma SurvivorIdempotent(mm: MergeMap, cid: string)
    ensures Survivor(mm, Survivor(mm, cid)) == Survivor(mm, cid)
  {
    WalkSurvives(mm, [], cid);
  }

  // ---------- The collapsed graph ----------

  function Survivors(ids: seq<string>, mm: MergeMap): (kept: seq<string>)
    ensures forall c :: c in kept <==> c in ids && Survivor(mm, c) == c
    ensures |kept| <= |ids|
  {
    if ids == [] then []
    else
      var last := ids[|ids| - 1];
      assert forall c :: c in ids <==> c in ids[..|ids| - 1] || c == last;
      Survivors(ids[..|ids| - 1], mm) + if Survivor(mm, last) == last then [last] else []
  }

  // What stands behind the given items is new, each item once.
  ghost predicate Adds(xs: seq<string>, r: seq<string>) {
    xs <= r && forall i, j :: 0 <= i < j < |r| && |xs| <= j ==> r[i] != r[j]
  }

  function AddNew(xs: seq<string>, ys: seq<string>): (r: seq<string>)
    ensures forall x :: x in r <==> x in xs || x in ys
    ensures Adds(xs, r)
  {
    if ys == [] then xs
    else
      var r := AddNew(xs, ys[..|ys| - 1]);
      assert forall y :: y in ys <==> y in ys[..|ys| - 1] || y == ys[|ys| - 1];
      if ys[|ys| - 1] in r then r else r + [ys[|ys| - 1]]
  }

  // A survivor that takes in a dropped concept.
  function Fold(surv: Concept, cid: string, n: Concept): Concept {
    Concept(surv.name,
            surv.aliases + (if n.name != "" then {n.name} else {}) + n.aliases,
            AddNew(surv.realizedBy, n.realizedBy),
            surv.relations + n.relations,
            surv.absorbed + {cid})
  }

  // Survivor s with the dropped concepts among `ids` folded in.
  function Absorbed(concepts: map<string, Concept>, mm: MergeMap, s: string, ids: seq<string>): Concept
    requires s in concepts
  {
    if ids == [] then concepts[s]
    else
      var cid := ids[|ids| - 1];
      var surv := Absorbed(concepts, mm, s, ids[..|ids| - 1]);
      if Survivor(mm, cid) == s && cid != s && cid in concepts then Fold(surv, cid, concepts[cid]) else surv
  }

  // What the references in `rels` become at survivor cid, self-loops left out.
  function Keys(mm: MergeMap, cid: string, rels: seq<Relation>): set<(string, string)> {
    set r | r in rels && r.Refers() && Survivor(mm, r.to) != cid :: (r.rel, Survivor(mm, r.to))
  }

  function Rewritten(mm: MergeMap, cid: string, rels: seq<Relation>): seq<Relation> {
    if rels == [] then []
    else
      var before, r := rels[..|rels| - 1], rels[|rels| - 1];
      var done := Rewritten(mm, cid, before);
      if !r.Refers() then done + [r]
      else
        var to := Survivor(mm, r.to);
        if to == cid || (r.rel, to) in Keys(mm, cid, before) then done else done + [r.(to := to)]
  }

  function Finished(mm: MergeMap, cid: string, surv: Concept): Concept {
    surv.(relations := Rewritten(mm, cid, surv.relations), aliases := surv.aliases - {""})
  }

  function Moved(mm: MergeMap, about: set<string>): set<string> {
    set x | x in about :: Survivor(mm, x)
  }

  function CollapsedConcept(g: Graph, mm: MergeMap, s: string): Concept
    requires s in g.concepts
  {
    Finished(mm, s, Absorbed(g.concepts, mm, s, g.ids))
  }

  function Collapse(g: Graph, mm: MergeMap): Graph {
    if mm == map[] then g
    else
      var kept := Survivors(g.ids, mm);
      Graph(kept,
            map s | s in kept && s in g.concepts :: CollapsedConcept(g, mm, s),
            map sid | sid in g.claims :: Moved(mm, g.claims[sid]))
  }

  method RewriteRelations(rels: seq<Relation>, cid: string, mm: MergeMap) returns (rewritten: seq<Relation>)
    ensures rewritten == Rewritten(mm, cid, rels)
  {
    rewritten := [];
    var seen: set<(string, string)> := {};
    for i := 0 to |rels|
      invariant seen == Keys(mm, cid, rels[..i]) && rewritten == Rewritten(mm, cid, rels[..i])
    {
      var r := rels[i];
      assert rels[..i + 1][..i] == rels[..i];
      assert forall q :: q in rels[..i + 1] <==> q in rels[..i] || q == r;
      if r.Refers() {
        var to := FindSurvivor(r.to, mm);
        if to != cid && (r.rel, to) !in seen {
          seen := seen + {(r.rel, to)};
          rewritten := rewritten + [r.(to := to)];
        }
      } else {
        rewritten := rewritten + [r];
      }
    }
    assert rels[..|rels|] == rels;
  }

  lemma SurvivorsNext(ids: seq<string>, mm: MergeMap, i: nat)
    requires i < |ids|
    ensures Survivors(ids[..i + 1], mm)
            == Survivors(ids[..i], mm) + if Survivor(mm, ids[i]) == ids[i] then [ids[i]] else []
  {
    assert ids[..i + 1][..i] == ids[..i];
  }

  // `out` holds the kept concepts as they are in `concepts`.
  ghost predicate Keeps(out: map<string, Concept>, kept: seq<string>, concepts: map<string, Concept>) {
    && (forall s :: s in out <==> s in kept)
    && forall s :: s in out ==> s in concepts && out[s] == concepts[s]
  }

  lemma KeepsOneMore(out: map<string, Concept>, kept: seq<string>, concepts: map<string, Concept>, s: string)
    requires Keeps(out, kept, concepts) && s in concepts
    ensures Keeps(out[s := concepts[s]], kept + [s], concepts)
  {
  }

  // Number i of the ids, kept if it survives.
  method KeepOne(g: Graph, mm: MergeMap, i: nat, kept: seq<string>, out: map<string, Concept>)
    returns (kept': seq<string>, out': map<string, Concept>)
    requires i < |g.ids| && g.ids[i] in g.concepts
    requires kept == Survivors(g.ids[..i], mm) && Keeps(out, kept, g.concepts)
    ensures kept' == Survivors(g.ids[..i + 1], mm) && Keeps(out', kept', g.concepts)
  {
    hide Keeps, Survivors, Survivor;
    SurvivorsNext(g.ids, mm, i);
    kept', out' := kept, out;
    var s := FindSurvivor(g.ids[i], mm);
    if s == g.ids[i] {
      KeepsOneMore(out, kept, g.concepts, s);
      kept' := kept + [s];
      out' := out[s := g.concepts[s]];
    }
  }

  method KeepSurvivors(g: Graph, mm: MergeMap) returns (kept: seq<string>, out: map<string, Concept>)
    requires IsGraph(g)
    ensures kept == Survivors(g.ids, mm) && Keeps(out, kept, g.concepts)
  {
    hide Distinct, Survivor;
    kept, out := [], map[];
    for i := 0 to |g.ids|
      invariant kept == Survivors(g.ids[..i], mm) && Keeps(out, kept, g.concepts)
    {
      hide Keeps, Survivors;
      assert g.ids[i] in g.ids;
      kept, out := KeepOne(g, mm, i, kept, out);
    }
    assert g.ids[..|g.ids|] == g.ids;
  }

  lemma AbsorbedNext(concepts: map<string, Concept>, mm: MergeMap, s: string, ids: seq<string>, i: nat)
    requires s in concepts && i < |ids|
    ensures var before := Absorbed(concepts, mm, s, ids[..i]);
      Absorbed(concepts, mm, s, ids[..i + 1])
      == if Survivor(mm, ids[i]) == s && ids[i] != s && ids[i] in concepts then Fold(before, ids[i], concepts[ids[i]])
         else before
  {
    assert ids[..i + 1][..i] == ids[..i];
  }

  // Every survivor has taken in its dropped concepts among the first i.
  ghost predicate Absorbs(out: map<string, Concept>, g: Graph, mm: MergeMap, i: nat)
    requires i <= |g.ids|
  {
    forall s :: s in out ==> s in g.concepts && out[s] == Absorbed(g.concepts, mm, s, g.ids[..i])
  }

  lemma AbsorbsNext(out: map<string, Concept>, g: Graph, mm: MergeMap, i: nat)
    requires i < |g.ids| && g.ids[i] in g.concepts && Absorbs(out, g, mm, i)
    ensures var cid := g.ids[i]; var s := Survivor(mm, cid);
      Absorbs(if s != cid && s in out then out[s := Fold(out[s], cid, g.concepts[cid])] else out, g, mm, i + 1)
  {
    hide Fold, Survivor;
    forall s | s in out ensures s in g.concepts { }
    forall s | s in out { AbsorbedNext(g.concepts, mm, s, g.ids, i); }
  }

  method FoldDropped(g: Graph, mm: MergeMap, survivors: map<string, Concept>) returns (out: map<string, Concept>)
    requires IsGraph(g) && forall s :: s in survivors ==> s in g.concepts && survivors[s] == g.concepts[s]
    ensures out.Keys == survivors.Keys
    ensures forall s :: s in out ==> s in g.concepts && out[s] == Absorbed(g.concepts, mm, s, g.ids)
  {
    hide Distinct;
    out := survivors;
    for i := 0 to |g.ids|
      invariant out.Keys == survivors.Keys && Absorbs(out, g, mm, i)
    {
      hide Absorbs, Fold, Survivor;
      var cid := g.ids[i];
      assert cid in g.ids;
      AbsorbsNext(out, g, mm, i);
      var s := FindSurvivor(cid, mm);
      if s != cid && s in out {
        out := out[s := Fold(out[s], cid, g.concepts[cid])];
      }
    }
    assert g.ids[..|g.ids|] == g.ids;
  }

  method FinishSurvivors(kept: seq<string>, mm: MergeMap, folded: map<string, Concept>)
      returns (out: map<string, Concept>)
    requires Distinct(kept) && forall s :: s in kept <==> s in folded
    ensures out.Keys == folded.Keys
    ensures forall s :: s in out ==> out[s] == Finished(mm, s, folded[s])
  {
    out := folded;
    for i := 0 to |kept|
      invariant out.Keys == folded.Keys
      invariant forall k :: 0 <= k < |kept| ==>
                  out[kept[k]] == if k < i then Finished(mm, kept[k], folded[kept[k]]) else folded[kept[k]]
    {
      var cid := kept[i];
      var relations := RewriteRelations(out[cid].relations, cid, mm);
      out := out[cid := out[cid].(relations := relations, aliases := out[cid].aliases - {""})];
    }
  }

  method RewriteClaims(claims: map<string, set<string>>, mm: MergeMap) returns (newClaims: map<string, set<string>>)
    ensures newClaims == map sid | sid in claims :: Moved(mm, claims[sid])
  {
    newClaims := map[];
    var rest := claims.Keys;
    while rest != {}
      invariant rest <= claims.Keys && newClaims.Keys == claims.Keys - rest
      invariant forall sid :: sid in newClaims ==> newClaims[sid] == Moved(mm, claims[sid])
    {
      var sid :| sid in rest;
      newClaims := newClaims[sid := Moved(mm, claims[sid])];
      rest := rest - {sid};
    }
  }

  lemma ConceptsComplete(g: Graph, mm: MergeMap, kept: seq<string>, out: map<string, Concept>)
    requires forall s :: s in out <==> s in kept
    requires forall s :: s in out ==> s in g.concepts && out[s] == CollapsedConcept(g, mm, s)
    ensures out == map s | s in kept && s in g.concepts :: CollapsedConcept(g, mm, s)
  {
  }

  method CollapseGraph(g: Graph, mm: MergeMap) returns (collapsed: Graph)
    requires IsGraph(g)
    ensures collapsed == Collapse(g, mm)
  {
    if mm == map[] { return g; }
    var kept, survivors := KeepSurvivors(g, mm);
    var folded := FoldDropped(g, mm, survivors);
    KeptDistinct(g.ids, mm);
    var out := FinishSurvivors(kept, mm, folded);
    var newClaims := RewriteClaims(g.claims, mm);
    ConceptsComplete(g, mm, kept, out);
    return Graph(kept, out, newClaims);
  }

  lemma {:induction false} KeptDistinct(ids: seq<string>, mm: MergeMap)
    requires Distinct(ids)
    ensures Distinct(Survivors(ids, mm))
  {
    if ids != [] {
      KeptDistinct(ids[..|ids| - 1], mm);
      var last := ids[|ids| - 1];
      assert last !in ids[..|ids| - 1];
    }
  }

  // ---------- The collapse is the quotient by survivor ----------

  ghost predicate HasEdge(rels: seq<Relation>, rel: string, to: string) {
    exists r :: r in rels && r.Refers() && r.rel == rel && r.to == to
  }

  // Concept a has a reference `rel` to a concept that t survives.
  ghost predicate PointsTo(mm: MergeMap, n: Concept, rel: string, t: string) {
    exists r :: r in n.relations && r.Refers() && r.rel == rel && Survivor(mm, r.to) == t
  }

  lemma {:induction false} RewrittenEdges(mm: MergeMap, cid: string, rels: seq<Relation>, rel: string, to: string)
    requires to != ""
    ensures HasEdge(Rewritten(mm, cid, rels), rel, to) <==> (rel, to) in Keys(mm, cid, rels)
  {
    if rels != [] {
      var before, r := rels[..|rels| - 1], rels[|rels| - 1];
      RewrittenEdges(mm, cid, before, rel, to);
      assert rels == before + [r];
      var done, all := Rewritten(mm, cid, before), Rewritten(mm, cid, rels);
      assert all == done || all == done + [all[|done|]];
      assert HasEdge(all, rel, to) <==> HasEdge(done, rel, to) || (|all| > |done| && HasEdge([all[|done|]], rel, to));
    }
  }

  lemma {:induction false} AbsorbedRelations(concepts: map<string, Concept>, mm: MergeMap, s: string, ids: seq<string>,
                                             r: Relation)
    requires s in concepts
    ensures r in Absorbed(concepts, mm, s, ids).relations <==>
      r in concepts[s].relations
      || exists c :: c in ids && c in concepts && c != s && Survivor(mm, c) == s && r in concepts[c].relations
  {
    if ids != [] {
      AbsorbedRelations(concepts, mm, s, ids[..|ids| - 1], r);
      assert ids == ids[..|ids| - 1] + [ids[|ids| - 1]];
    }
  }

  // Edge (s, rel, t) of the collapsed graph: some concept that s survives refers to one that t
  // survives, and s and t differ. A survivor that is no concept takes its edges with it.
  lemma CollapseIsQuotient(g: Graph, mm: MergeMap, s: string, rel: string, t: string)
    requires IsGraph(g) && mm != map[] && t != ""
    ensures var out := Collapse(g, mm).concepts;
      s in out && HasEdge(out[s].relations, rel, t) <==>
      s in g.concepts && s != t
      && exists a :: a in g.concepts && Survivor(mm, a) == s && PointsTo(mm, g.concepts[a], rel, t)
  {
    var out := Collapse(g, mm).concepts;
    forall a | a in g.concepts && Survivor(mm, a) == s ensures Survivor(mm, s) == s { SurvivorIdempotent(mm, a); }
    if s in out {
      var whole := Absorbed(g.concepts, mm, s, g.ids).relations;
      RewrittenEdges(mm, s, whole, rel, t);
      forall r { AbsorbedRelations(g.concepts, mm, s, g.ids, r); }
      if (rel, t) in Keys(mm, s, whole) {
        var r :| r in whole && r.Refers() && r.rel == rel && Survivor(mm, r.to) == t;
        var a :| a in g.concepts && Survivor(mm, a) == s && r in g.concepts[a].relations;
        assert PointsTo(mm, g.concepts[a], rel, t);
      }
      if a :| a in g.concepts && Survivor(mm, a) == s && PointsTo(mm, g.concepts[a], rel, t) {
        var r :| r in g.concepts[a].relations && r.Refers() && r.rel == rel && Survivor(mm, r.to) == t;
        assert r in whole;
      }
    }
  }

  ghost predicate FoldedInto(g: Graph, mm: MergeMap, s: string, c: string) {
    c in g.concepts && c != s && Survivor(mm, c) == s
  }

  lemma {:induction false} AbsorbedFields(concepts: map<string, Concept>, mm: MergeMap, s: string, ids: seq<string>,
                                          x: string)
    requires s in concepts
    ensures var n := Absorbed(concepts, mm, s, ids);
      && (x in n.absorbed <==>
          x in concepts[s].absorbed || (x in ids && x in concepts && x != s && Survivor(mm, x) == s))
      && (x in n.realizedBy <==>
          (x in concepts[s].realizedBy
           || exists c :: c in ids && c in concepts && c != s && Survivor(mm, c) == s && x in concepts[c].realizedBy))
      && (x in n.aliases <==>
          (x in concepts[s].aliases
           || exists c :: c in ids && c in concepts && c != s && Survivor(mm, c) == s
                          && (x in concepts[c].aliases || (x == concepts[c].name && x != ""))))
  {
    hide Survivor;
    if ids != [] {
      AbsorbedFields(concepts, mm, s, ids[..|ids| - 1], x);
      assert ids == ids[..|ids| - 1] + [ids[|ids| - 1]];
    }
  }

  // Exactly the self-surviving concepts stay, and each has what it and its dropped concepts had.
  lemma CollapseKeepsContents(g: Graph, mm: MergeMap, s: string, x: string)
    requires IsGraph(g) && mm != map[]
    ensures s in Collapse(g, mm).concepts <==> s in g.concepts && Survivor(mm, s) == s
    ensures s in Collapse(g, mm).concepts ==>
      var n, own := Collapse(g, mm).concepts[s], g.concepts[s];
      && n.name == own.name
      && (x in n.absorbed <==> x in own.absorbed || FoldedInto(g, mm, s, x))
      && (x in n.realizedBy <==>
          (x in own.realizedBy || exists c :: FoldedInto(g, mm, s, c) && x in g.concepts[c].realizedBy))
      && (x in n.aliases <==>
          (x != ""
           && (x in own.aliases
               || exists c :: FoldedInto(g, mm, s, c) && (x in g.concepts[c].aliases || x == g.concepts[c].name))))
  {
    if s in Collapse(g, mm).concepts {
      AbsorbedFields(g.concepts, mm, s, g.ids, x);
      AbsorbedName(g.concepts, mm, s, g.ids);
      assert forall c :: FoldedInto(g, mm, s, c) <==> c in g.ids && c in g.concepts && c != s && Survivor(mm, c) == s;
    }
  }

  // The realizations of a survivor stay in front, and what is added to them is added once.
  lemma RealizationsAreAddedOnce(g: Graph, mm: MergeMap, s: string)
    requires IsGraph(g) && mm != map[] && s in Collapse(g, mm).concepts
    ensures var own, all := g.concepts[s].realizedBy, Collapse(g, mm).concepts[s].realizedBy;
      own <= all && forall i, j :: 0 <= i < j < |all| && |own| <= j ==> all[i] != all[j]
  {
    AbsorbedRealizations(g.concepts, mm, s, g.ids);
  }

  lemma {:induction false} AbsorbedRealizations(concepts: map<string, Concept>, mm: MergeMap, s: string,
                                                ids: seq<string>)
    requires s in concepts
    ensures Adds(concepts[s].realizedBy, Absorbed(concepts, mm, s, ids).realizedBy)
  {
    if ids != [] { AbsorbedRealizations(concepts, mm, s, ids[..|ids| - 1]); }
  }

  lemma {:induction false} AbsorbedName(concepts: map<string, Concept>, mm: MergeMap, s: string, ids: seq<string>)
    requires s in concepts
    ensures Absorbed(concepts, mm, s, ids).name == concepts[s].name
  {
    if ids != [] { AbsorbedName(concepts, mm, s, ids[..|ids| - 1]); }
  }

  // ---------- Relations in detail ----------

  // What is no reference: no dictionary, or one without a target.
  function Others(rels: seq<Relation>): seq<Relation> {
    if rels == [] then []
    else
      var r := rels[|rels| - 1];
      Others(rels[..|rels| - 1]) + if r.Edge? && r.to != "" then [] else [r]
  }

  lemma OthersSnoc(rels: seq<Relation>, r: Relation)
    ensures Others(rels + [r]) == Others(rels) + if r.Edge? && r.to != "" then [] else [r]
  {
    assert (rels + [r])[..|rels|] == rels;
  }

  lemma {:induction false} SurvivorNamed(mm: MergeMap, path: seq<string>, cid: string)
    requires "" !in mm.Values && cid != ""
    ensures SurvivorAfter(mm, path, cid) != ""
    decreases mm.Keys - set x | x in path
  {
    if cid in mm && cid !in path {
      assert cid in mm.Keys - (set x | x in path);
      assert mm[cid] in mm.Values;
      SurvivorNamed(mm, path + [cid], mm[cid]);
    }
  }

  // Relation i is the first of all that becomes this one.
  ghost predicate IsFirst(mm: MergeMap, rels: seq<Relation>, i: nat, r: Relation) {
    && i < |rels| && rels[i].Edge? && rels[i].to != "" && r == rels[i].(to := Survivor(mm, rels[i].to))
    && forall j :: 0 <= j < i && rels[j].Edge? && rels[j].to != "" && rels[j].rel == r.rel ==>
         Survivor(mm, rels[j].to) != r.to
  }

  ghost predicate ComeFirst(mm: MergeMap, rels: seq<Relation>, done: seq<Relation>) {
    forall k :: 0 <= k < |done| && done[k].Edge? && done[k].to != "" ==> exists i :: IsFirst(mm, rels, i, done[k])
  }

  ghost predicate NoneRepeated(done: seq<Relation>) {
    forall i, j :: 0 <= i < j < |done| && done[i].Edge? && done[j].Edge? && done[i].to != "" ==>
      done[i].rel != done[j].rel || done[i].to != done[j].to
  }

  lemma FirstStays(mm: MergeMap, rels: seq<Relation>, last: Relation, done: seq<Relation>)
    requires ComeFirst(mm, rels, done)
    ensures ComeFirst(mm, rels + [last], done)
  {
    forall k | 0 <= k < |done| && done[k].Edge? && done[k].to != ""
      ensures exists i :: IsFirst(mm, rels + [last], i, done[k])
    {
      var i :| IsFirst(mm, rels, i, done[k]);
      assert IsFirst(mm, rels + [last], i, done[k]);
    }
  }

  // Of the references that become the same one it keeps the first, with its other fields; what is no reference
  // stays, in its order, if no concept is merged into a nameless one.
  lemma {:induction false} RewrittenExactly(mm: MergeMap, cid: string, rels: seq<Relation>)
    ensures var done := Rewritten(mm, cid, rels);
      NoneRepeated(done) && ComeFirst(mm, rels, done) && ("" !in mm.Values ==> Others(done) == Others(rels))
  {
    if rels != [] {
      var before, r := rels[..|rels| - 1], rels[|rels| - 1];
      var done := Rewritten(mm, cid, before);
      assert rels == before + [r];
      RewrittenExactly(mm, cid, before);
      OthersSnoc(before, r);
      FirstStays(mm, before, r, done);
      if !(r.Edge? && r.to != "") {
        OthersSnoc(done, r);
      } else if Survivor(mm, r.to) != cid && (r.rel, Survivor(mm, r.to)) !in Keys(mm, cid, before) {
        if "" !in mm.Values { SurvivorNamed(mm, [], r.to); }
        NoneBefore(mm, cid, before, r);
        OthersSnoc(done, r.(to := Survivor(mm, r.to)));
        hide Rewritten, Others, NoneRepeated, ComeFirst, Survivor, SurvivorAfter, Keys;
        OneMoreReference(mm, before, r, done);
      }
    }
  }

  // No earlier reference becomes the same one.
  ghost predicate IsNew(mm: MergeMap, before: seq<Relation>, r: Relation)
    requires r.Edge?
  {
    forall j :: 0 <= j < |before| && before[j].Edge? && before[j].to != "" && before[j].rel == r.rel ==>
      Survivor(mm, before[j].to) != Survivor(mm, r.to)
  }

  lemma NoneBefore(mm: MergeMap, cid: string, before: seq<Relation>, r: Relation)
    requires r.Edge? && Survivor(mm, r.to) != cid && (r.rel, Survivor(mm, r.to)) !in Keys(mm, cid, before)
    ensures IsNew(mm, before, r)
  {
    hide Survivor;
    forall j | 0 <= j < |before| && before[j].Edge? && before[j].to != "" && before[j].rel == r.rel
      ensures Survivor(mm, before[j].to) != Survivor(mm, r.to)
    {
      assert before[j] in before && before[j].Refers();
    }
  }

  lemma OneMoreReference(mm: MergeMap, before: seq<Relation>, r: Relation, done: seq<Relation>)
    requires r.Edge? && r.to != "" && IsNew(mm, before, r)
    requires NoneRepeated(done) && ComeFirst(mm, before, done) && ComeFirst(mm, before + [r], done)
    ensures var more := done + [r.(to := Survivor(mm, r.to))];
      NoneRepeated(more) && ComeFirst(mm, before + [r], more)
  {
    hide Survivor;
    var next := r.(to := Survivor(mm, r.to));
    assert IsFirst(mm, before + [r], |before|, next);
    forall k | 0 <= k < |done| && done[k].Edge? && done[k].to != ""
      ensures done[k].rel != next.rel || done[k].to != next.to
    {
      var i :| IsFirst(mm, before, i, done[k]);
    }
    hide IsFirst;
  }

  // ---------- Collapsing twice ----------

  lemma {:induction false} RewrittenKeys(mm: MergeMap, cid: string, rels: seq<Relation>)
    ensures Keys(mm, cid, Rewritten(mm, cid, rels)) <= Keys(mm, cid, rels)
  {
    if rels != [] {
      var before, r := rels[..|rels| - 1], rels[|rels| - 1];
      RewrittenKeys(mm, cid, before);
      assert rels == before + [r];
      var done, all := Rewritten(mm, cid, before), Rewritten(mm, cid, rels);
      if all != done {
        if r.Refers() { SurvivorIdempotent(mm, r.to); }
        assert forall q :: q in all <==> q in done || q == all[|done|];
        assert Keys(mm, cid, all) <= Keys(mm, cid, done) + Keys(mm, cid, [r]);
      }
      assert Keys(mm, cid, rels) == Keys(mm, cid, before) + Keys(mm, cid, [r]);
    }
  }

  lemma {:induction false} RewrittenTwice(mm: MergeMap, cid: string, rels: seq<Relation>)
    ensures Rewritten(mm, cid, Rewritten(mm, cid, rels)) == Rewritten(mm, cid, rels)
  {
    if rels != [] {
      var before, r := rels[..|rels| - 1], rels[|rels| - 1];
      var done, all := Rewritten(mm, cid, before), Rewritten(mm, cid, rels);
      RewrittenTwice(mm, cid, before);
      RewrittenKeys(mm, cid, before);
      if all != done {
        assert all[..|all| - 1] == done;
        if r.Refers() { SurvivorIdempotent(mm, r.to); }
      }
    }
  }

  lemma {:induction false} NothingAbsorbed(concepts: map<string, Concept>, mm: MergeMap, s: string, ids: seq<string>)
    requires s in concepts && forall c :: c in ids ==> Survivor(mm, c) == c
    ensures Absorbed(concepts, mm, s, ids) == concepts[s]
  {
    if ids != [] {
      assert ids == ids[..|ids| - 1] + [ids[|ids| - 1]];
      NothingAbsorbed(concepts, mm, s, ids[..|ids| - 1]);
    }
  }

  lemma {:induction false} SurvivorsOfSurvivors(ids: seq<string>, mm: MergeMap)
    requires forall c :: c in ids ==> Survivor(mm, c) == c
    ensures Survivors(ids, mm) == ids
  {
    if ids != [] {
      assert ids == ids[..|ids| - 1] + [ids[|ids| - 1]];
      SurvivorsOfSurvivors(ids[..|ids| - 1], mm);
    }
  }

  lemma MovedTwice(mm: MergeMap, about: set<string>)
    ensures Moved(mm, Moved(mm, about)) == Moved(mm, about)
  {
    forall x | x in about ensures Survivor(mm, Survivor(mm, x)) == Survivor(mm, x) { SurvivorIdempotent(mm, x); }
    forall y | y in Moved(mm, about) ensures y in Moved(mm, Moved(mm, about)) {
      var x :| x in about && Survivor(mm, x) == y;
      assert Survivor(mm, y) == y;
    }
  }

  lemma ClaimsMovedTwice(mm: MergeMap, claims: map<string, set<string>>)
    ensures var once := map sid | sid in claims :: Moved(mm, claims[sid]);
      (map sid | sid in once :: Moved(mm, once[sid])) == once
  {
    forall sid | sid in claims
      ensures Moved(mm, Moved(mm, claims[sid])) == Moved(mm, claims[sid])
    {
      MovedTwice(mm, claims[sid]);
    }
  }

  lemma ConceptCollapsedTwice(g: Graph, mm: MergeMap, s: string)
    requires mm != map[] && s in Collapse(g, mm).concepts
    ensures CollapsedConcept(Collapse(g, mm), mm, s) == Collapse(g, mm).concepts[s]
  {
    var once := Collapse(g, mm);
    NothingAbsorbed(once.concepts, mm, s, once.ids);
    RewrittenTwice(mm, s, Absorbed(g.concepts, mm, s, g.ids).relations);
    assert once.concepts[s].aliases - {""} == once.concepts[s].aliases;
  }

  lemma CollapseIdempotent(g: Graph, mm: MergeMap)
    requires IsGraph(g)
    ensures Collapse(Collapse(g, mm), mm) == Collapse(g, mm)
  {
    if mm != map[] {
      var once := Collapse(g, mm);
      var twice := Collapse(once, mm);
      SurvivorsOfSurvivors(once.ids, mm);
      ClaimsMovedTwice(mm, g.claims);
      forall s | s in once.ids ensures s in once.concepts && CollapsedConcept(once, mm, s) == once.concepts[s] {
        ConceptCollapsedTwice(g, mm, s);
      }
      assert twice.concepts == once.concepts;
    }
  }

  // ---------- Recording merges ----------

  // k merges followed from c, as far as they go.
  function Follow(mm: MergeMap, c: string, k: nat): string {
    if k == 0 then c else
      var d := Follow(mm, c, k - 1);
      if d in mm then mm[d] else d
  }

  ghost predicate Ends(mm: MergeMap, c: string) {
    exists k: nat :: Follow(mm, c, k) !in mm
  }

  ghost predicate Reaches(mm: MergeMap, c: string, d: string) {
    exists j: nat :: Follow(mm, c, j) == d
  }

  lemma {:induction false} FollowFrom(mm: MergeMap, c: string, j: nat, k: nat)
    ensures Follow(mm, c, j + k) == Follow(mm, Follow(mm, c, j), k)
  {
    if k > 0 { FollowFrom(mm, c, j, k - 1); }
  }

  lemma {:induction false} FollowStays(mm: MergeMap, c: string, j: nat, k: nat)
    requires Follow(mm, c, j) !in mm && j <= k
    ensures Follow(mm, c, k) == Follow(mm, c, j)
    decreases k
  {
    if j < k { FollowStays(mm, c, j, k - 1); }
  }

  // A walk that has come round to a concept it started from never ends.
  lemma {:induction false} LoopNeverEnds(mm: MergeMap, c: string, k: nat, n: nat)
    requires k > 0 && c in mm && Follow(mm, c, k) == c
    ensures Follow(mm, c, n) in mm
    decreases n
  {
    if n >= k {
      FollowFrom(mm, c, k, n - k);
      LoopNeverEnds(mm, c, k, n - k);
    } else if Follow(mm, c, n) !in mm {
      FollowStays(mm, c, n, k);
    }
  }

  lemma {:induction false} WalkFollows(mm: MergeMap, path: seq<string>, cid: string, i: nat)
    requires IsWalk(mm, path, cid) && i <= |path|
    ensures Follow(mm, if path == [] then cid else path[0], i) == if i < |path| then path[i] else cid
  {
    if i > 0 { WalkFollows(mm, path, cid, i - 1); }
  }

  // The survivor lies on the walk, and is past every merge exactly when the walk ends.
  lemma {:induction false} SurvivorOnWalk(mm: MergeMap, path: seq<string>, cid: string) returns (k: nat)
    requires Distinct(path) && IsWalk(mm, path, cid)
    ensures var start := if path == [] then cid else path[0];
      var s := SurvivorAfter(mm, path, cid);
      s == Follow(mm, start, k) && (s in mm ==> !Ends(mm, start))
    decreases mm.Keys - set x | x in path
  {
    var start := if path == [] then cid else path[0];
    if cid in mm && cid !in path {
      assert cid in mm.Keys - (set x | x in path);
      k := SurvivorOnWalk(mm, path + [cid], mm[cid]);
    } else {
      k := |path|;
      WalkFollows(mm, path, cid, k);
      if cid in mm {
        var j :| 0 <= j < |path| && path[j] == cid;
        WalkFollows(mm, path, cid, j);
        forall n: nat ensures Follow(mm, start, n) in mm {
          if Follow(mm, start, n) !in mm {
            FollowStays(mm, start, n, n + k);
            FollowFrom(mm, start, k, n);
            FollowFrom(mm, start, j, k - j);
            LoopNeverEnds(mm, cid, k - j, n);
          }
        }
      }
    }
  }

  lemma SurvivorResolves(mm: MergeMap, c: string) returns (k: nat)
    ensures Survivor(mm, c) == Follow(mm, c, k)
    ensures Survivor(mm, c) !in mm <==> Ends(mm, c)
  {
    k := SurvivorOnWalk(mm, [], c);
  }

  ghost predicate AllResolved(mm: MergeMap) {
    forall c :: Survivor(mm, c) !in mm
  }

  // Before the new merge takes part, both maps lead the same way.
  lemma {:induction false} SameUntilDropped(mm: MergeMap, dropped: string, into: string, c: string, k: nat)
    requires dropped !in mm
    ensures var mm' := mm[dropped := into];
      Follow(mm, c, k) != dropped ==> Follow(mm', c, k) == Follow(mm, c, k)
    ensures Follow(mm, c, k) == dropped ==> Reaches(mm[dropped := into], c, dropped)
  {
    var mm' := mm[dropped := into];
    if k == 0 {
      assert Follow(mm', c, 0) == c;
    } else {
      SameUntilDropped(mm, dropped, into, c, k - 1);
      if Follow(mm, c, k - 1) != dropped && Follow(mm, c, k) == dropped {
        assert Follow(mm', c, k) == dropped && Reaches(mm', c, dropped);
      }
    }
  }

  lemma EndsBackwards(mm: MergeMap, c: string, j: nat)
    requires Ends(mm, Follow(mm, c, j))
    ensures Ends(mm, c)
  {
    var k: nat :| Follow(mm, Follow(mm, c, j), k) !in mm;
    FollowFrom(mm, c, j, k);
  }

  lemma {:induction false} EndsWithoutDropped(mm: MergeMap, dropped: string, into: string, c: string, k: nat)
    requires dropped !in mm && Follow(mm[dropped := into], c, k) !in mm[dropped := into]
    ensures Ends(mm, c)
    decreases k
  {
    SameUntilDropped(mm, dropped, into, c, k);
    if Follow(mm, c, k) == dropped { assert Follow(mm, c, k) !in mm; }
  }

  // A recorded merge leaves every concept with a survivor past all merges exactly when the other
  // merges do and the concept merged into does not itself end at the dropped one.
  lemma RecordedMergeResolves(mm: MergeMap, dropped: string, into: string)
    ensures var others := mm - {dropped};
      AllResolved(mm[dropped := into]) <==> AllResolved(others) && Survivor(others, into) != dropped
  {
    var others := mm - {dropped};
    var mm' := others[dropped := into];
    assert mm' == mm[dropped := into];
    if AllResolved(mm') {
      forall c ensures Survivor(others, c) !in others {
        var _ := SurvivorResolves(mm', c);
        var k: nat :| Follow(mm', c, k) !in mm';
        EndsWithoutDropped(others, dropped, into, c, k);
        var _ := SurvivorResolves(others, c);
      }
      if Survivor(others, into) == dropped {
        var k := SurvivorResolves(others, into);
        SameUntilDropped(others, dropped, into, into, k);
        var j: nat :| Follow(mm', into, j) == dropped;
        FollowFrom(mm', dropped, 1, j);
        assert Follow(mm', dropped, 0) == dropped && Follow(mm', dropped, 1) == into;
        var _ := SurvivorResolves(mm', dropped);
        var n: nat :| Follow(mm', dropped, n) !in mm';
        LoopNeverEnds(mm', dropped, 1 + j, n);
      }
    }
    if AllResolved(others) && Survivor(others, into) != dropped {
      var k := SurvivorResolves(others, into);
      SameUntilDropped(others, dropped, into, into, k);
      assert Follow(mm', into, k) !in mm';
      assert Follow(mm', dropped, 0) == dropped && Follow(mm', dropped, 1) == into;
      EndsBackwards(mm', dropped, 1);
      forall c ensures Survivor(mm', c) !in mm' {
        var n := SurvivorResolves(others, c);
        SameUntilDropped(others, dropped, into, c, n);
        if Follow(others, c, n) == dropped {
          var j: nat :| Follow(mm', c, j) == dropped;
          EndsBackwards(mm', c, j);
        } else {
          assert Follow(mm', c, n) !in mm';
        }
        var _ := SurvivorResolves(mm', c);
      }
    }
  }

  // The store of recorded merges (dropped id to the id it was merged into).
  class MergeStore {
    var data: MergeMap

    constructor ()
      ensures data == map[]
    {
      data := map[];
    }

    // False when a concept would be merged into itself.
    method RecordMerge(dropped: string, into: string) returns (ok: bool)
      modifies this
      ensures ok <==> dropped != into
      ensures data == if ok then old(data)[dropped := into] else old(data)
    {
      ok := dropped != into;
      if ok { data := data[dropped := into]; }
    }

    method Unmerge(dropped: string) returns (existed: bool)
      modifies this
      ensures existed <==> dropped in old(data)
      ensures data == old(data) - {dropped}
    {
      existed := dropped in data;
      data := data - {dropped};
    }
  }

  // ---------- Which member of a circle survives ----------

  // The survivor is where the walk first ends or first comes to a concept it has passed.
  lemma {:induction false} FirstEndOrReturn(mm: MergeMap, path: seq<string>, cid: string) returns (k: nat)
    requires Distinct(path) && IsWalk(mm, path, cid)
    ensures var start, s := if path == [] then cid else path[0], SurvivorAfter(mm, path, cid);
      && s == Follow(mm, start, k) && (s !in mm || exists j :: 0 <= j < k && Follow(mm, start, j) == s)
      && (forall i :: 0 <= i < k ==> Follow(mm, start, i) in mm)
      && (forall i, j :: 0 <= i < j < k ==> Follow(mm, start, i) != Follow(mm, start, j))
    decreases mm.Keys - set x | x in path
  {
    var start := if path == [] then cid else path[0];
    if cid in mm && cid !in path {
      assert cid in mm.Keys - (set x | x in path);
      k := FirstEndOrReturn(mm, path + [cid], mm[cid]);
    } else {
      k := |path|;
      forall i | 0 <= i <= k ensures Follow(mm, start, i) == if i < k then path[i] else cid {
        WalkFollows(mm, path, cid, i);
      }
      if cid in mm {
        var j :| 0 <= j < |path| && path[j] == cid;
        assert Follow(mm, start, j) == cid;
      }
    }
  }

  lemma SurvivorIsFirst(mm: MergeMap, c: string) returns (k: nat)
    ensures var s := Survivor(mm, c);
      && s == Follow(mm, c, k) && (s !in mm || exists j :: 0 <= j < k && Follow(mm, c, j) == s)
      && (forall i :: 0 <= i < k ==> Follow(mm, c, i) in mm)
      && (forall i, j :: 0 <= i < j < k ==> Follow(mm, c, i) != Follow(mm, c, j))
  {
    k := FirstEndOrReturn(mm, [], c);
  }

  // ---------- Claims ----------

  // Every claim stays, and is then about exactly the survivors of what it was about.
  lemma CollapseMovesClaims(g: Graph, mm: MergeMap, sid: string, x: string)
    ensures sid in Collapse(g, mm).claims <==> sid in g.claims
    ensures sid in g.claims ==>
              (x in Collapse(g, mm).claims[sid] <==> exists c :: c in g.claims[sid] && Survivor(mm, c) == x)
  {
    if sid in g.claims && mm == map[] {
      assert forall c :: Survivor(mm, c) == c;
    }
  }
}
