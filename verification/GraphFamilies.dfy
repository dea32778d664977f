/**
  Which raw-input families a raw source belongs to: its own family and modality, and those of every
  source it depends on, found by a depth-first search that tolerates dependency cycles.
 */
module GraphFamilies {
  import opened Wrappers
  import opened JsonValues
  import opened ModelContracts

  // A raw-input definition, as far as the search reads it.
  datatype RawSource = RawSource(family: Option<RawInputFamily>, descriptor: SourceDescriptor)

  type SourceIndex = map<string, RawSource>

  function Displayed(family: RawInputFamily): RawInputFamily {
    if family.PilotCamera? then I else family
  }

  function ModalityFamily(modality: RawModality): RawInputFamily {
    match modality
    case ModalityX => X
    case ModalityU => U
    case ModalityI => I
    case ModalityPilotCamera => I
    case ModalityG => G
    case Eeg => P
    case Ecg => P
  }

  function DirectFamilies(source: RawSource): set<RawInputFamily> {
    (if source.family.Some? then {Displayed(source.family.value)} else {})
    + (if source.descriptor.rawModality.Some? then {ModalityFamily(source.descriptor.rawModality.value)} else {})
  }

  // Every indexed source is filed under its own ID.
  predicate Indexed(index: SourceIndex) {
    forall id <- index :: index[id].descriptor.sourceId == id
  }

  // ----- The search -----

  function ResolveFamilies(source: RawSource, index: SourceIndex, visiting: set<string>): set<RawInputFamily>
    requires Indexed(index) && source.descriptor.sourceId in index
    decreases index.Keys - visiting, 0
  {
    var id := source.descriptor.sourceId;
    if id in visiting then DirectFamilies(source)
    else DirectFamilies(source) + ResolveAll(source.descriptor.dependencies, index, visiting + {id})
  }

  function ResolveAll(dependencies: seq<string>, index: SourceIndex, visiting: set<string>): set<RawInputFamily>
    requires Indexed(index)
    decreases index.Keys - visiting, |dependencies| + 1
  {
    if dependencies == [] then {}
    else
      var rest := ResolveAll(dependencies[1..], index, visiting);
      if dependencies[0] in index then ResolveFamilies(index[dependencies[0]], index, visiting) + rest else rest
  }

  // The same search as it runs: a result set that grows and a path set that is restored on the way out.
  method ResolveFamiliesInPlace(source: RawSource, index: SourceIndex, visiting: set<string>)
    returns (result: set<RawInputFamily>, restored: set<string>)
    requires Indexed(index) && source.descriptor.sourceId in index
    ensures result == ResolveFamilies(source, index, visiting)
    ensures restored == visiting
    decreases index.Keys - visiting
  {
    result := {};
    restored := visiting;
    if source.family.Some? {
      result := result + {Displayed(source.family.value)};
    }
    if source.descriptor.rawModality.Some? {
      result := result + {ModalityFamily(source.descriptor.rawModality.value)};
    }
    var sourceId := source.descriptor.sourceId;
    if sourceId in restored {
      return;
    }
    restored := restored + {sourceId};
    var dependencies := source.descriptor.dependencies;
    ghost var total := ResolveFamilies(source, index, visiting);
    var i := 0;
    while i < |dependencies|
      invariant 0 <= i <= |dependencies|
      invariant restored == visiting + {sourceId}
      invariant total == result + ResolveAll(dependencies[i..], index, restored)
    {
      if dependencies[i] in index {
        var found;
        found, restored := ResolveFamiliesInPlace(index[dependencies[i]], index, restored);
        result := result + found;
      }
      i := i + 1;
    }
    restored := restored - {sourceId};
  }

  // ----- What it finds -----

  ghost predicate Path(index: SourceIndex, p: seq<string>) {
    && p != []
    && (forall i :: 0 <= i < |p| ==> p[i] in index)
    && (forall i :: 0 <= i < |p| - 1 ==> p[i + 1] in index[p[i]].descriptor.dependencies)
  }

  // p leads from id to a source of family f and meets no source of avoided before its last.
  ghost predicate Leads(index: SourceIndex, id: string, avoided: set<string>, f: RawInputFamily, p: seq<string>) {
    && Path(index, p) && p[0] == id
    && (forall i :: 0 <= i < |p| - 1 ==> p[i] !in avoided)
    && f in DirectFamilies(index[p[|p| - 1]])
  }

  ghost predicate Collects(index: SourceIndex, id: string, avoided: set<string>, f: RawInputFamily) {
    exists p :: Leads(index, id, avoided, f, p)
  }

  lemma {:induction false} SearchFollowsPaths(index: SourceIndex, id: string, visiting: set<string>, f: RawInputFamily)
    requires Indexed(index) && id in index
    ensures f in ResolveFamilies(index[id], index, visiting) <==> Collects(index, id, visiting, f)
    decreases index.Keys - visiting, 0
  {
    var source := index[id];
    if f in DirectFamilies(source) {
      assert Leads(index, id, visiting, f, [id]);
    } else if id in visiting {
      if p :| Leads(index, id, visiting, f, p) {
        assert false;
      }
    } else {
      var dependencies := source.descriptor.dependencies;
      AllFollowPaths(index, dependencies, visiting + {id}, f);
      if d :| d in dependencies && d in index && Collects(index, d, visiting + {id}, f) {
        var q :| Leads(index, d, visiting + {id}, f, q);
        PrependStep(index, id, visiting, f, d, q);
      }
      if p :| Leads(index, id, visiting, f, p) {
        CutLoop(index, id, visiting, f, p);
      }
    }
  }

  lemma {:induction false} AllFollowPaths(index: SourceIndex, dependencies: seq<string>, visiting: set<string>,
                                          f: RawInputFamily)
    requires Indexed(index)
    ensures f in ResolveAll(dependencies, index, visiting) <==>
            exists d :: d in dependencies && d in index && Collects(index, d, visiting, f)
    decreases index.Keys - visiting, |dependencies| + 1
  {
    if dependencies != [] {
      AllFollowPaths(index, dependencies[1..], visiting, f);
      if dependencies[0] in index {
        SearchFollowsPaths(index, dependencies[0], visiting, f);
      }
    }
  }

  lemma PrependStep(index: SourceIndex, id: string, visiting: set<string>, f: RawInputFamily, d: string, q: seq<string>)
    requires id in index && id !in visiting && d in index[id].descriptor.dependencies
    requires Leads(index, d, visiting + {id}, f, q)
    ensures Leads(index, id, visiting, f, [id] + q)
  {
    var p := [id] + q;
    assert p[|p| - 1] == q[|q| - 1];
    forall i | 0 <= i < |p| - 1
      ensures p[i + 1] in index[p[i]].descriptor.dependencies && p[i] !in visiting
    {
      if i > 0 { assert p[i] == q[i - 1] && p[i + 1] == q[i]; }
    }
  }

  // A path may come back to id; what follows its last visit does not.
  lemma {:induction false} CutLoop(index: SourceIndex, id: string, visiting: set<string>, f: RawInputFamily,
                                   p: seq<string>)
    requires id in index && f !in DirectFamilies(index[id])
    requires Leads(index, id, visiting, f, p)
    ensures exists d :: d in index[id].descriptor.dependencies && d in index && Collects(index, d, visiting + {id}, f)
    decreases |p|
  {
    var q := p[1..];
    assert |p| > 1;
    assert q[|q| - 1] == p[|p| - 1];
    assert forall i :: 0 <= i < |q| ==> q[i] == p[i + 1];
    if i :| 0 <= i < |q| - 1 && q[i] == id {
      var r := q[i..];
      assert r[|r| - 1] == q[|q| - 1];
      assert forall j :: 0 <= j < |r| ==> r[j] == p[i + 1 + j];
      assert Leads(index, id, visiting, f, r);
      CutLoop(index, id, visiting, f, r);
    } else {
      assert Leads(index, q[0], visiting + {id}, f, q);
    }
  }

  // ----- Membership of every raw node -----

  function SourceOf(node: ModelNode): RawSource
    requires node.definition.RawInput?
  {
    RawSource(node.definition.family, node.definition.source)
  }

  predicate IsRaw(node: ModelNode) {
    node.definition.RawInput?
  }

  predicate AllRaw(nodes: seq<ModelNode>) {
    forall i :: 0 <= i < |nodes| ==> nodes[i].definition.RawInput?
  }

  // The first definition of each source ID wins.
  function IndexSources(nodes: seq<ModelNode>): (index: SourceIndex)
    requires AllRaw(nodes)
    ensures Indexed(index)
    ensures forall i :: 0 <= i < |nodes| ==> nodes[i].definition.source.sourceId in index
  {
    if nodes == [] then map[]
    else
      assert forall i :: 0 <= i < |nodes[1..]| ==> nodes[1..][i] == nodes[i + 1];
      var rest := IndexSources(nodes[1..]);
      assert forall i :: 1 <= i < |nodes| ==> nodes[i] == nodes[1..][i - 1];
      rest[nodes[0].definition.source.sourceId := SourceOf(nodes[0])]
  }

  // Node k carries the indexed definition of its source ID: no earlier node has that ID.
  ghost predicate FirstOfItsId(nodes: seq<ModelNode>, k: nat)
    requires AllRaw(nodes) && k < |nodes|
  {
    forall j :: 0 <= j < k ==> nodes[j].definition.source.sourceId != nodes[k].definition.source.sourceId
  }

  lemma {:induction false} IndexFindsFirst(nodes: seq<ModelNode>, k: nat)
    requires AllRaw(nodes) && k < |nodes| && FirstOfItsId(nodes, k)
    ensures IndexSources(nodes)[nodes[k].definition.source.sourceId] == SourceOf(nodes[k])
  {
    if k > 0 {
      assert forall i :: 0 <= i < |nodes[1..]| ==> nodes[1..][i] == nodes[i + 1];
      assert nodes[1..][k - 1] == nodes[k];
      IndexFindsFirst(nodes[1..], k - 1);
    }
  }

  // A path of indexed sources that the source depends on, the first of them directly.
  ghost predicate Follows(source: RawSource, index: SourceIndex, p: seq<string>) {
    Path(index, p) && p[0] in source.descriptor.dependencies
  }

  // f is the source's own family or that of a source it reaches.
  ghost predicate Reaches(source: RawSource, index: SourceIndex, f: RawInputFamily) {
    f in DirectFamilies(source) || exists p :: Follows(source, index, p) && f in DirectFamilies(index[p[|p| - 1]])
  }

  // Its dependencies lead back to the definition indexed under its own ID, which may be another's.
  ghost predicate LeadsBack(source: RawSource, index: SourceIndex) {
    exists p :: Follows(source, index, p) && p[|p| - 1] == source.descriptor.sourceId
  }

  // f is the source's own family, or that of a source on a path that does not pass its ID.
  ghost predicate ReachedAside(source: RawSource, index: SourceIndex, f: RawInputFamily) {
    || f in DirectFamilies(source)
    || exists d :: d in source.descriptor.dependencies && d in index
                   && Collects(index, d, {source.descriptor.sourceId}, f)
  }

  // What the search finds from any definition, indexed or not.
  lemma FoundExactly(source: RawSource, index: SourceIndex, f: RawInputFamily)
    requires Indexed(index) && source.descriptor.sourceId in index
    ensures f in ResolveFamilies(source, index, {}) <==> ReachedAside(source, index, f)
  {
    var none: set<string> := {};
    assert none + {source.descriptor.sourceId} == {source.descriptor.sourceId};
    AllFollowPaths(index, source.descriptor.dependencies, {source.descriptor.sourceId}, f);
  }

  // Everything found is reached.
  lemma FoundIsReached(source: RawSource, index: SourceIndex, f: RawInputFamily)
    requires Indexed(index) && source.descriptor.sourceId in index && f in ResolveFamilies(source, index, {})
    ensures Reaches(source, index, f)
  {
    FoundExactly(source, index, f);
    if f !in DirectFamilies(source) {
      var id := source.descriptor.sourceId;
      var d :| d in source.descriptor.dependencies && d in index && Collects(index, d, {id}, f);
      var p :| Leads(index, d, {id}, f, p);
      assert Follows(source, index, p);
    }
  }

  lemma PathSuffix(index: SourceIndex, p: seq<string>, i: nat)
    requires Path(index, p) && i < |p|
    ensures Path(index, p[i..]) && p[i..][0] == p[i] && p[i..][|p| - i - 1] == p[|p| - 1]
    ensures Path(index, p[..i + 1])
  {
  }

  // Everything reached is found, or is found from the definition indexed under the ID, to which the path leads back.
  lemma ReachedIsFoundOrBehind(source: RawSource, index: SourceIndex, f: RawInputFamily)
    requires Indexed(index) && source.descriptor.sourceId in index && Reaches(source, index, f)
    ensures var id := source.descriptor.sourceId;
            || f in ResolveFamilies(source, index, {})
            || (LeadsBack(source, index) && f in ResolveFamilies(index[id], index, {}))
  {
    var id := source.descriptor.sourceId;
    FoundExactly(source, index, f);
    if f !in DirectFamilies(source) {
      var p :| Follows(source, index, p) && f in DirectFamilies(index[p[|p| - 1]]);
      if i :| 0 <= i < |p| - 1 && p[i] == id {
        PathSuffix(index, p, i);
        assert Follows(source, index, p[..i + 1]) && p[..i + 1][i] == id;
        assert Leads(index, id, {}, f, p[i..]);
        SearchFollowsPaths(index, id, {}, f);
      } else {
        assert Leads(index, p[0], {id}, f, p);
      }
    }
  }

  // And what is found behind the way back is reached.
  lemma BehindIsReached(source: RawSource, index: SourceIndex, f: RawInputFamily)
    requires Indexed(index) && source.descriptor.sourceId in index && LeadsBack(source, index)
    requires f in ResolveFamilies(index[source.descriptor.sourceId], index, {})
    ensures Reaches(source, index, f)
  {
    var id := source.descriptor.sourceId;
    var p :| Follows(source, index, p) && p[|p| - 1] == id;
    SearchFollowsPaths(index, id, {}, f);
    var q :| Leads(index, id, {}, f, q);
    var r := p[..|p| - 1] + q;
    assert r[|r| - 1] == q[|q| - 1];
    forall i | 0 <= i < |r| - 1 ensures r[i + 1] in index[r[i]].descriptor.dependencies {
      if i < |p| - 1 {
        assert r[i] == p[i] && r[i + 1] == p[i + 1];
      } else {
        assert r[i] == q[i - (|p| - 1)] && r[i + 1] == q[i + 1 - (|p| - 1)];
      }
    }
    assert Follows(source, index, r);
  }

  // From an indexed definition everything reached is found.
  lemma FoundFromIndexed(source: RawSource, index: SourceIndex, f: RawInputFamily)
    requires Indexed(index) && source.descriptor.sourceId in index && index[source.descriptor.sourceId] == source
    ensures f in ResolveFamilies(source, index, {}) <==> Reaches(source, index, f)
  {
    if f in ResolveFamilies(source, index, {}) {
      FoundIsReached(source, index, f);
    }
    if Reaches(source, index, f) {
      ReachedIsFoundOrBehind(source, index, f);
    }
  }

  ghost predicate FoundAllReached(source: RawSource, index: SourceIndex)
    requires Indexed(index) && source.descriptor.sourceId in index
  {
    forall f :: f in ResolveFamilies(source, index, {}) <==> Reaches(source, index, f)
  }

  /**
    For every raw node, first under its source ID or not, and every dependency graph: the families found are
    exactly those reached, if and only if its dependencies do not lead back to its ID, or every family that the
    definition indexed there reaches is the node's own or lies on a path that does not pass the ID.
   */
  lemma FamiliesAreReachable(nodes: seq<ModelNode>, k: nat)
    requires AllRaw(nodes) && k < |nodes|
    ensures var source, index := SourceOf(nodes[k]), IndexSources(nodes);
            FoundAllReached(source, index) <==>
            (LeadsBack(source, index) ==>
               forall f :: Reaches(index[source.descriptor.sourceId], index, f) ==> ReachedAside(source, index, f))
    ensures FirstOfItsId(nodes, k) ==> FoundAllReached(SourceOf(nodes[k]), IndexSources(nodes))
  {
    var source, index := SourceOf(nodes[k]), IndexSources(nodes);
    var first := index[source.descriptor.sourceId];
    var behind := ResolveFamilies(first, index, {});
    forall f
      ensures f in ResolveFamilies(source, index, {}) ==> Reaches(source, index, f)
      ensures Reaches(source, index, f) ==>
                f in ResolveFamilies(source, index, {}) || (LeadsBack(source, index) && f in behind)
      ensures LeadsBack(source, index) && f in behind ==> Reaches(source, index, f)
      ensures f in ResolveFamilies(source, index, {}) <==> ReachedAside(source, index, f)
      ensures f in behind <==> Reaches(first, index, f)
    {
      FoundExactly(source, index, f);
      FoundFromIndexed(first, index, f);
      if f in ResolveFamilies(source, index, {}) {
        FoundIsReached(source, index, f);
      }
      if Reaches(source, index, f) {
        ReachedIsFoundOrBehind(source, index, f);
      }
      if LeadsBack(source, index) && f in behind {
        BehindIsReached(source, index, f);
      }
    }
    if FirstOfItsId(nodes, k) {
      IndexFindsFirst(nodes, k);
    }
  }

  // A later definition under a used ID is different: only the first is indexed, so the second, whose dependency
  // leads back to that ID, misses what the first depends on.
  lemma SharedIdHidesFamilies(a: ModelNode, b: ModelNode, c: ModelNode)
    requires IsRaw(a) && IsRaw(b) && IsRaw(c)
    requires SourceOf(a) == RawSource(None, SourceDescriptor("s", JNull, None, ["t"]))
    requires SourceOf(b) == RawSource(None, SourceDescriptor("s", JNull, None, ["s"]))
    requires SourceOf(c) == RawSource(Some(X), SourceDescriptor("t", JNull, None, []))
    ensures var index := IndexSources([a, b, c]);
            X !in ResolveFamilies(SourceOf(b), index, {}) && Reaches(SourceOf(b), index, X)
  {
    var index := IndexSources([a, b, c]);
    var onlyC, fromB := IndexSources([c]), IndexSources([b, c]);
    assert [a, b, c][1..] == [b, c] && [b, c][1..] == [c] && [c][1..] == [];
    assert IndexSources([c][1..]) == map[];
    assert onlyC == map["t" := SourceOf(c)];
    assert fromB == onlyC["s" := SourceOf(b)] && index == fromB["s" := SourceOf(a)];
    assert "s" != "t" by { assert "s"[0] != "t"[0]; }
    assert index["s"] == SourceOf(a) && index["t"] == SourceOf(c);
    assert ResolveAll(["s"][1..], index, {"s"}) == {};
    assert ResolveFamilies(index["s"], index, {"s"}) == {};
    assert ResolveAll(["s"], index, {"s"}) == {};
    var none: set<string> := {};
    assert none + {"s"} == {"s"};
    assert Follows(SourceOf(b), index, ["s", "t"]);
  }
}
