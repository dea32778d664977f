/** What a projection shows: which nodes, where, and which links between them, in terms of the snapshot. */
module GraphContents {
  import opened Wrappers
  import opened ModelContracts
  import opened Sequences
  import opened GraphFamilies
  import opened GraphProjection

  // ----- Which nodes are drawn -----

  predicate InLayer(layer: Layer, n: ModelNode) {
    match layer
    case RawInputFamilyLayer => false
    case ExtractedDataLayer => n.definition.RawInput?
    case EvidenceLayer => n.definition.Evidence?
    case SubSkillLayer => n.definition.Bn? && !n.definition.role.AggregateCompetency?
    case CompetencyLayer => n.definition.Bn? && n.definition.role.AggregateCompetency?
  }

  // The texts a search looks into.
  function SearchedTexts(n: ModelNode): set<string> {
    {n.nodeId, n.name, n.shortName, n.description} + (if n.group.Some? then {n.group.value} else {})
    + (set i | 0 <= i < |n.tags| :: n.tags[i])
  }

  // The view mode and every filter that is set let the node through.
  ghost predicate Shown(s: ModelGraphSnapshot, o: Options, n: ModelNode) {
    var active := n.nodeId in s.scheme.activeClosure;
    && (o.viewMode.ActiveOnly? ==> active)
    && (o.viewMode.ActiveAndInactive? ==> !n.lifecycle.Archived?)
    && (forall layer :: o.layer == Some(layer) ==> InLayer(layer, n))
    && (forall group :: o.group == Some(group) ==> n.group == Some(group))
    && (o.active == Some(true) ==> active) && (o.active == Some(false) ==> !active)
    && (o.search.Some? ==> exists text <- SearchedTexts(n) :: o.search.value(text))
  }

  lemma ShownExactly(s: ModelGraphSnapshot, o: Options, n: ModelNode)
    ensures Included(s, o, n) <==> Shown(s, o, n)
  {
    if o.search.Some? && Shown(s, o, n) {
      var text :| text in SearchedTexts(n) && o.search.value(text);
      if i :| 0 <= i < |n.tags| && n.tags[i] == text {
        assert o.search.value(n.tags[i]);
      }
    }
    if o.search.Some? && Included(s, o, n) {
      if i :| 0 <= i < |n.tags| && o.search.value(n.tags[i]) {
        assert n.tags[i] in SearchedTexts(n);
      }
      assert {n.nodeId, n.name, n.shortName, n.description} <= SearchedTexts(n);
    }
  }

  function Node(p: NodeProjection): ModelNode {
    p.node
  }

  function NodeKey(n: ModelNode): string {
    n.nodeId
  }

  ghost predicate IsShown(s: ModelGraphSnapshot, o: Options, overrides: Layouts, item: NodeWithLayout) {
    Shown(s, o, item.node)
  }

  // The drawn nodes are exactly the shown ones of the snapshot, in the order of their IDs.
  lemma NodesAreTheShown(s: ModelGraphSnapshot, o: Options)
    requires Project(s, o).Some?
    ensures var nodes := Map(Node, Project(s, o).value.nodes);
            && (forall n :: n in nodes <==> n in s.nodes && Shown(s, o, n))
            && Sorted(nodes, NodeKey) && DistinctBy(nodes, NodeKey)
  {
    var overrides := LayoutsById(s.scheme.layoutOverrides).value;
    DrawnInOrder(s, o, overrides);
    forall n ensures n in Map(Node, Project(s, o).value.nodes) <==> n in s.nodes && Shown(s, o, n) {
      ShownExactly(s, o, n);
      DrawnFrom(s, o, overrides, n);
    }
  }

  lemma DrawnInOrder(s: ModelGraphSnapshot, o: Options, overrides: Layouts)
    ensures var drawn := ProjectNodes(s, o, overrides);
            && Sorted(Map(Node, drawn), NodeKey)
            && (DistinctDrawn(drawn) ==> DistinctBy(Map(Node, drawn), NodeKey))
  {
    var items, drawn := Candidates(s, o, overrides), ProjectNodes(s, o, overrides);
    SortBySorts(Filter((item: NodeWithLayout) => Included(s, o, item.node), AllLayouts(s, overrides)), ItemId);
    assert forall i :: 0 <= i < |items| ==> ItemId(items[i]) == NodeKey(Map(Node, drawn)[i]);
  }

  lemma DrawnFrom(s: ModelGraphSnapshot, o: Options, overrides: Layouts, n: ModelNode)
    ensures n in Map(Node, ProjectNodes(s, o, overrides)) <==> n in s.nodes && Included(s, o, n)
  {
    var drawn := ProjectNodes(s, o, overrides);
    var items := Candidates(s, o, overrides);
    var all := AllLayouts(s, overrides);
    if n in Map(Node, drawn) {
      var i :| 0 <= i < |drawn| && Map(Node, drawn)[i] == n;
      assert items[i] in all && items[i].node == n;
    }
    if n in s.nodes && Included(s, o, n) {
      var i :| 0 <= i < |s.nodes| && s.nodes[i] == n;
      assert all[i] == Placed(overrides, n) && all[i] in all;
      assert all[i] in items;
      var j :| 0 <= j < |items| && items[j] == all[i];
      assert Map(Node, drawn)[j] == n;
    }
  }

  // ----- When there is a projection at all -----

  // No two of the elements that pass share a key.
  ghost predicate NoTwoShare<A(!new)>(p: A -> bool, xs: seq<A>, key: A -> string) {
    forall i, j :: 0 <= i < j < |xs| && p(xs[i]) && p(xs[j]) ==> key(xs[i]) != key(xs[j])
  }

  lemma {:induction false} FilterDistinct<A(!new)>(p: A -> bool, xs: seq<A>, key: A -> string)
    ensures DistinctBy(Filter(p, xs), key) <==> NoTwoShare(p, xs, key)
  {
    if xs != [] {
      var rest, kept := xs[1..], Filter(p, xs[1..]);
      FilterDistinct(p, rest, key);
      assert forall i :: 1 <= i < |xs| ==> xs[i] == rest[i - 1];
      if p(xs[0]) {
        assert Filter(p, xs)[1..] == kept;
        if DistinctBy(Filter(p, xs), key) {
          forall j, k | 0 <= j < k < |kept| ensures key(kept[j]) != key(kept[k]) {
            assert Filter(p, xs)[j + 1] == kept[j] && Filter(p, xs)[k + 1] == kept[k];
          }
          forall j | 0 < j < |xs| && p(xs[j]) ensures key(xs[0]) != key(xs[j]) {
            assert xs[j] in rest;
            var k :| 0 <= k < |kept| && kept[k] == xs[j];
            assert Filter(p, xs)[k + 1] == xs[j];
          }
        }
        if NoTwoShare(p, xs, key) {
          forall j | 0 <= j < |kept| ensures key(kept[j]) != key(xs[0]) {
            assert kept[j] in kept;
            var k :| 0 <= k < |rest| && rest[k] == kept[j];
            assert xs[k + 1] == kept[j];
          }
        }
      }
    }
  }

  lemma {:induction false} InsertDistinct<A(!new)>(x: A, xs: seq<A>, key: A -> string)
    ensures DistinctBy(Insert(x, xs, key), key) <==> DistinctBy([x] + xs, key)
  {
    if xs != [] && !Le(key(x), key(xs[0])) {
      var rest, inserted := xs[1..], Insert(x, xs[1..], key);
      InsertDistinct(x, rest, key);
      InsertPermutes(x, rest, key);
      HeadDistinct(xs[0], inserted, key);
      HeadDistinct(x, xs, key);
      HeadDistinct(x, rest, key);
      HeadDistinct(xs[0], rest, key);
      assert xs == [xs[0]] + rest;
      forall y ensures y in inserted <==> y == x || y in rest {
        assert y in multiset(inserted) <==> y == x || y in multiset(rest);
      }
    }
  }

  lemma HeadDistinct<A(!new)>(x: A, xs: seq<A>, key: A -> string)
    ensures DistinctBy([x] + xs, key) <==> DistinctBy(xs, key) && forall y <- xs :: key(y) != key(x)
  {
    var all := [x] + xs;
    assert forall i :: 0 <= i < |xs| ==> all[i + 1] == xs[i];
    if DistinctBy(all, key) {
      forall j, k | 0 <= j < k < |xs| ensures key(xs[j]) != key(xs[k]) {
        assert all[j + 1] == xs[j] && all[k + 1] == xs[k];
      }
      forall y | y in xs ensures key(y) != key(x) {
        var k :| 0 <= k < |xs| && xs[k] == y;
        assert all[k + 1] == y && all[0] == x;
      }
    }
    if DistinctBy(xs, key) && forall y <- xs :: key(y) != key(x) {
      forall j, k | 0 <= j < k < |all| ensures key(all[j]) != key(all[k]) {
        assert all[k] == xs[k - 1] && xs[k - 1] in xs;
      }
    }
  }

  lemma {:induction false} SortDistinct<A(!new)>(xs: seq<A>, key: A -> string)
    ensures DistinctBy(SortBy(xs, key), key) <==> DistinctBy(xs, key)
  {
    if xs != [] {
      var rest := xs[1..];
      SortDistinct(rest, key);
      InsertDistinct(xs[0], SortBy(rest, key), key);
      HeadDistinct(xs[0], SortBy(rest, key), key);
      HeadDistinct(xs[0], rest, key);
      assert xs == [xs[0]] + rest;
    }
  }

  lemma SameKeys<A(!new), B(!new)>(a: seq<A>, b: seq<B>, key: A -> string, key': B -> string)
    requires |a| == |b| && forall i :: 0 <= i < |a| ==> key(a[i]) == key'(b[i])
    ensures DistinctBy(a, key) <==> DistinctBy(b, key')
  {
  }

  lemma ItemsDistinct(s: ModelGraphSnapshot, o: Options, overrides: Layouts)
    ensures DistinctBy(Candidates(s, o, overrides), ItemId) <==>
            NoTwoShare((n: ModelNode) => Shown(s, o, n), s.nodes, NodeKey)
  {
    var all := AllLayouts(s, overrides);
    var included := (item: NodeWithLayout) => Included(s, o, item.node);
    SortDistinct(Filter(included, all), ItemId);
    FilterDistinct(included, all, ItemId);
    forall i | 0 <= i < |all| ensures included(all[i]) == Shown(s, o, s.nodes[i]) {
      ShownExactly(s, o, s.nodes[i]);
    }
    assert forall i :: 0 <= i < |all| ==> ItemId(all[i]) == NodeKey(s.nodes[i]);
  }

  lemma DrawnDistinct(s: ModelGraphSnapshot, o: Options, overrides: Layouts)
    ensures DistinctDrawn(ProjectNodes(s, o, overrides)) <==>
            NoTwoShare((n: ModelNode) => Shown(s, o, n), s.nodes, NodeKey)
  {
    var items, drawn := Candidates(s, o, overrides), ProjectNodes(s, o, overrides);
    ItemsDistinct(s, o, overrides);
    SameKeys(items, drawn, ItemId, (p: NodeProjection) => p.node.nodeId);
  }

  // There is a projection exactly when no ID repeats among the overriding layouts, the shown nodes, and the raw nodes.
  lemma ProjectsExactly(s: ModelGraphSnapshot, o: Options)
    ensures Project(s, o).Some? <==>
            && (forall i, j :: 0 <= i < j < |s.scheme.layoutOverrides| ==>
                  s.scheme.layoutOverrides[i].nodeId != s.scheme.layoutOverrides[j].nodeId)
            && NoTwoShare((n: ModelNode) => Shown(s, o, n), s.nodes, NodeKey)
            && NoTwoShare((n: ModelNode) => n.definition.RawInput?, s.nodes, NodeKey)
  {
    LayoutsExactly(s.scheme.layoutOverrides);
    if LayoutsById(s.scheme.layoutOverrides).Some? {
      DrawnDistinct(s, o, LayoutsById(s.scheme.layoutOverrides).value);
    }
    FilterDistinct(IsRaw, s.nodes, NodeKey);
  }

  // ----- Where they are drawn -----

  // The overriding layouts by node ID; no ID may repeat.
  lemma {:induction false} LayoutsExactly(layouts: seq<NodeLayout>)
    ensures LayoutsById(layouts).Some? <==>
            forall i, j :: 0 <= i < j < |layouts| ==> layouts[i].nodeId != layouts[j].nodeId
    ensures LayoutsById(layouts).Some? ==>
              && (forall i :: 0 <= i < |layouts| ==>
                    layouts[i].nodeId in LayoutsById(layouts).value
                    && LayoutsById(layouts).value[layouts[i].nodeId] == layouts[i])
              && (forall id <- LayoutsById(layouts).value ::
                    exists i :: 0 <= i < |layouts| && layouts[i].nodeId == id)
  {
    if layouts != [] {
      var rest := layouts[1..];
      LayoutsExactly(rest);
      assert forall i :: 1 <= i < |layouts| ==> layouts[i] == rest[i - 1];
      if LayoutsById(layouts).Some? {
        forall id <- LayoutsById(layouts).value ensures exists i :: 0 <= i < |layouts| && layouts[i].nodeId == id {
          if id != layouts[0].nodeId {
            var i :| 0 <= i < |rest| && rest[i].nodeId == id;
            assert layouts[i + 1].nodeId == id;
          } else {
            assert layouts[0].nodeId == id;
          }
        }
      } else if LayoutsById(rest).Some? {
        var i :| 0 <= i < |rest| && rest[i].nodeId == layouts[0].nodeId;
        assert layouts[i + 1].nodeId == layouts[0].nodeId;
      }
    }
  }

  // Its layout in the scheme, if the scheme overrides it, or its own.
  ghost predicate LaidOutAt(s: ModelGraphSnapshot, n: ModelNode, layout: NodeLayout) {
    if exists l <- s.scheme.layoutOverrides :: l.nodeId == n.nodeId
    then layout in s.scheme.layoutOverrides && layout.nodeId == n.nodeId
    else layout == n.globalLayout
  }

  lemma PlacedAsLaidOut(s: ModelGraphSnapshot, n: ModelNode)
    requires LayoutsById(s.scheme.layoutOverrides).Some?
    ensures LaidOutAt(s, n, Placed(LayoutsById(s.scheme.layoutOverrides).value, n).layout)
  {
    LayoutsExactly(s.scheme.layoutOverrides);
  }

  // The lane a node is drawn in, by what it is.
  function Lane(n: ModelNode): real {
    match n.definition
    case RawInput(_, _, _, _) => 300.0
    case Evidence(_, _, _, _, _, _, _, _, _, _, _) => 300.0
    case Bn(role, _, _, _, _, _, _, _, _) => if role == AggregateCompetency then 1400.0 else 800.0
  }

  // The least shift that brings every node up to the padding.
  ghost predicate ShiftsX(items: seq<NodeWithLayout>, shift: real) {
    && shift >= 0.0
    && (forall item <- items :: item.layout.x + Lane(item.node) + shift >= CANVAS_PADDING)
    && (shift > 0.0 ==> exists item <- items :: item.layout.x + Lane(item.node) + shift == CANVAS_PADDING)
  }

  ghost predicate ShiftsY(items: seq<NodeWithLayout>, shift: real) {
    && shift >= 0.0
    && (forall item <- items :: item.layout.y + shift >= CANVAS_PADDING)
    && (shift > 0.0 ==> exists item <- items :: item.layout.y + shift == CANVAS_PADDING)
  }

  lemma {:induction false} MinimumXIsLeast(items: seq<NodeWithLayout>)
    requires items != []
    ensures forall item <- items :: MinimumX(items) <= item.layout.x + Lane(item.node)
    ensures exists item <- items :: MinimumX(items) == item.layout.x + Lane(item.node)
  {
    assert items[0] in items;
    if |items| > 1 {
      MinimumXIsLeast(items[1..]);
      assert items == [items[0]] + items[1..];
      var other :| other in items[1..] && MinimumX(items[1..]) == other.layout.x + Lane(other.node);
      assert other in items;
    }
  }

  lemma {:induction false} MinimumYIsLeast(items: seq<NodeWithLayout>)
    requires items != []
    ensures forall item <- items :: MinimumY(items) <= item.layout.y
    ensures exists item <- items :: MinimumY(items) == item.layout.y
  {
    assert items[0] in items;
    if |items| > 1 {
      MinimumYIsLeast(items[1..]);
      assert items == [items[0]] + items[1..];
      var other :| other in items[1..] && MinimumY(items[1..]) == other.layout.y;
      assert other in items;
    }
  }

  lemma OffsetsAreLeast(s: ModelGraphSnapshot, overrides: Layouts)
    ensures ShiftsX(AllLayouts(s, overrides), OffsetX(s, overrides))
    ensures ShiftsY(AllLayouts(s, overrides), OffsetY(s, overrides))
  {
    var items := AllLayouts(s, overrides);
    if items != [] {
      MinimumXIsLeast(items);
      MinimumYIsLeast(items);
    }
  }

  // A drawn node is at its layout, in its lane and moved by the shift, and carries the marks of its node.
  ghost predicate DrawnAs(s: ModelGraphSnapshot, o: Options, shiftX: real, shiftY: real, layout: NodeLayout,
                          p: NodeProjection) {
    var n := p.node;
    && LaidOutAt(s, n, layout)
    && p.x == layout.x + Lane(n) + shiftX && p.y == layout.y + shiftY
    && p.layoutOffsetX == p.x - layout.x && p.layoutOffsetY == p.y - layout.y
    && (p.isActive <==> n.nodeId in s.scheme.activeClosure)
    && (p.isOutput <==> n.nodeId in s.scheme.outputNodeIds)
    && (p.isArchived <==> n.lifecycle == Archived)
    && (p.isSelected <==> n.nodeId in o.selectedNodeIds)
    && p.opacity == (if p.isArchived then 0.24 else if p.isActive then 1.0 else 0.38)
    && p.caption == o.nodeCaption(n, p.isActive, p.isOutput)
  }

  lemma NodeIsDrawnAs(s: ModelGraphSnapshot, o: Options, overrides: Layouts, item: NodeWithLayout, shiftX: real,
                      shiftY: real)
    requires LayoutsById(s.scheme.layoutOverrides) == Some(overrides) && item == Placed(overrides, item.node)
    ensures DrawnAs(s, o, shiftX, shiftY, item.layout, ProjectNode(s, o, item, shiftX, shiftY))
  {
    PlacedAsLaidOut(s, item.node);
  }

  // Every node is drawn so under one shift, the least that leaves no node of the snapshot above or left of the padding.
  lemma NodesAreDrawnAs(s: ModelGraphSnapshot, o: Options) returns (shiftX: real, shiftY: real)
    requires Project(s, o).Some?
    ensures ShiftsX(AllLayouts(s, LayoutsById(s.scheme.layoutOverrides).value), shiftX)
    ensures ShiftsY(AllLayouts(s, LayoutsById(s.scheme.layoutOverrides).value), shiftY)
    ensures forall p <- Project(s, o).value.nodes :: exists layout :: DrawnAs(s, o, shiftX, shiftY, layout, p)
  {
    var overrides := LayoutsById(s.scheme.layoutOverrides).value;
    shiftX, shiftY := OffsetX(s, overrides), OffsetY(s, overrides);
    OffsetsAreLeast(s, overrides);
    var items, drawn := Candidates(s, o, overrides), Project(s, o).value.nodes;
    forall p <- drawn ensures exists layout :: DrawnAs(s, o, shiftX, shiftY, layout, p) {
      var i :| 0 <= i < |drawn| && p == drawn[i];
      assert items[i] in AllLayouts(s, overrides);
      NodeIsDrawnAs(s, o, overrides, items[i], shiftX, shiftY);
      assert DrawnAs(s, o, shiftX, shiftY, items[i].layout, p);
    }
  }

  // ----- Edges -----

  function Edge(e: EdgeProjection): ModelGraphEdge {
    e.edge
  }

  ghost predicate Drawn(r: Projection, id: string) {
    exists p <- r.nodes :: p.node.nodeId == id
  }

  // An edge leads from its parent to its child, and is active with both of them.
  ghost predicate Joins(s: ModelGraphSnapshot, e: EdgeProjection) {
    && e.parent.node.nodeId == e.edge.parentId && e.child.node.nodeId == e.edge.childId
    && (e.isActive <==> e.edge.parentId in s.scheme.activeClosure && e.edge.childId in s.scheme.activeClosure)
  }

  predicate BothIn(nodes: seq<NodeProjection>, e: ModelGraphEdge) {
    HasNode(nodes, e.parentId) && HasNode(nodes, e.childId)
  }

  // The drawn edges are the snapshot's edges with both ends drawn, each as often as there, by ID, the right way round.
  lemma EdgesAreDrawn(s: ModelGraphSnapshot, o: Options)
    requires Project(s, o).Some?
    ensures var r := Project(s, o).value;
            var edges := Map(Edge, r.edges);
            && (forall e <- r.edges :: Joins(s, e) && e.parent in r.nodes && e.child in r.nodes)
            && (forall e :: e in edges <==> e in s.edges && Drawn(r, e.parentId) && Drawn(r, e.childId))
            && (forall e <- edges :: multiset(edges)[e] == multiset(s.edges)[e])
            && Sorted(edges, EdgeKey)
  {
    var r := Project(s, o).value;
    assert Map(Edge, r.edges) == DrawnEdges(s, r.nodes);
    forall id ensures HasNode(r.nodes, id) == Drawn(r, id) {
      if i :| 0 <= i < |r.nodes| && r.nodes[i].node.nodeId == id {
        assert r.nodes[i] in r.nodes;
      }
    }
    EdgesOf(s, r.nodes);
  }

  lemma EdgesOf(s: ModelGraphSnapshot, nodes: seq<NodeProjection>)
    ensures var edges := DrawnEdges(s, nodes);
            && (forall e :: e in edges <==> e in s.edges && HasNode(nodes, e.parentId) && HasNode(nodes, e.childId))
            && (forall e <- edges :: multiset(edges)[e] == multiset(s.edges)[e])
            && Sorted(edges, EdgeKey)
  {
    var both := (e: ModelGraphEdge) => HasNode(nodes, e.parentId) && HasNode(nodes, e.childId);
    var edges := DrawnEdges(s, nodes);
    SortBySorts(Filter(both, s.edges), EdgeKey);
    forall e <- edges ensures multiset(edges)[e] == multiset(s.edges)[e] {
      FilterCounts(both, s.edges, e);
    }
  }

  // ----- Families and provenance -----

  // What a raw definition says of itself: its family, the pilot's camera being a visual input, and that of its
  // modality.
  lemma DirectFamiliesExactly(source: RawSource, f: RawInputFamily)
    ensures f in DirectFamilies(source) <==>
            var family, modality := source.family, source.descriptor.rawModality;
            match f
            case X => family == Some(X) || modality == Some(ModalityX)
            case U => family == Some(U) || modality == Some(ModalityU)
            case I => family in {Some(I), Some(PilotCamera)} || modality in {Some(ModalityI), Some(ModalityPilotCamera)}
            case G => family == Some(G) || modality == Some(ModalityG)
            case P => family == Some(P) || modality in {Some(Eeg), Some(Ecg)}
            case PilotCamera => false
  {
  }

  function SnapshotIndex(s: ModelGraphSnapshot): SourceIndex {
    IndexSources(RawNodes(s.nodes))
  }

  // A raw node of the snapshot under this ID reaches the family, aside from paths back through its own source ID.
  ghost predicate Belongs(s: ModelGraphSnapshot, id: string, f: RawInputFamily) {
    exists n <- s.nodes :: IsRaw(n) && n.nodeId == id && ReachedAside(SourceOf(n), SnapshotIndex(s), f)
  }

  lemma {:induction false} MembershipFinds(raws: seq<ModelNode>, index: SourceIndex, id: string)
    requires AllRaw(raws) && Indexed(index) && DistinctIds(raws)
    requires forall i :: 0 <= i < |raws| ==> raws[i].definition.source.sourceId in index
    ensures forall k :: 0 <= k < |raws| && raws[k].nodeId == id ==>
              FamiliesOf(MembershipOf(raws, index), id) == ResolveFamilies(SourceOf(raws[k]), index, {})
    ensures (forall k :: 0 <= k < |raws| ==> raws[k].nodeId != id) ==> FamiliesOf(MembershipOf(raws, index), id) == {}
  {
    if raws != [] {
      var rest := raws[1..];
      assert forall i :: 0 <= i < |rest| ==> rest[i] == raws[i + 1];
      MembershipFinds(rest, index, id);
      assert forall i :: 1 <= i < |raws| ==> raws[i] == rest[i - 1];
    }
  }

  lemma MembershipExactly(s: ModelGraphSnapshot, id: string, f: RawInputFamily)
    requires DistinctIds(RawNodes(s.nodes))
    ensures f in FamiliesOf(ResolveFamilyMembership(s.nodes), id) <==> Belongs(s, id, f)
  {
    var raws, index := RawNodes(s.nodes), SnapshotIndex(s);
    MembershipFinds(raws, index, id);
    if k :| 0 <= k < |raws| && raws[k].nodeId == id {
      FoundExactly(SourceOf(raws[k]), index, f);
      assert raws[k] in raws && raws[k] in s.nodes;
    }
    if Belongs(s, id, f) {
      var n :| n in s.nodes && IsRaw(n) && n.nodeId == id && ReachedAside(SourceOf(n), index, f);
      assert n in raws;
      var k :| 0 <= k < |raws| && raws[k] == n;
      FoundExactly(SourceOf(raws[k]), index, f);
    }
  }

  // A provenance link joins a drawn family to a drawn raw node of it.
  ghost predicate Provides(s: ModelGraphSnapshot, r: Projection, e: ProvenanceEdge) {
    && e.parent in r.families && e.child in r.nodes && IsRaw(e.child.node)
    && Belongs(s, e.child.node.nodeId, e.parent.family)
    && e.isActive == e.child.isActive
  }

  lemma {:induction false} AllProvenanceExactly(nodes: seq<NodeProjection>, families: seq<FamilyProjection>,
                                                membership: Membership, e: ProvenanceEdge)
    ensures e in AllProvenance(nodes, families, membership) <==>
            && e.parent in families && e.child in nodes && IsRaw(e.child.node)
            && e.parent.family in FamiliesOf(membership, e.child.node.nodeId) && e.isActive == e.child.isActive
  {
    if nodes != [] {
      AllProvenanceExactly(nodes[1..], families, membership, e);
      assert nodes == [nodes[0]] + nodes[1..];
      NodeProvenanceExactly(families, nodes[0], FamiliesOf(membership, nodes[0].node.nodeId), e);
    }
  }

  lemma NodeProvenanceExactly(families: seq<FamilyProjection>, node: NodeProjection, found: set<RawInputFamily>,
                              e: ProvenanceEdge)
    ensures e in NodeProvenance(families, node, found) <==>
            e.parent in families && e.child == node && e.parent.family in found && e.isActive == node.isActive
  {
    var kept := Filter((f: FamilyProjection) => f.family in found, families);
    var links := NodeProvenance(families, node, found);
    if e.parent in families && e.child == node && e.parent.family in found && e.isActive == node.isActive {
      var i :| 0 <= i < |kept| && kept[i] == e.parent;
      assert links[i] == e;
    }
    if e in links {
      var i :| 0 <= i < |links| && links[i] == e;
      assert kept[i] == e.parent && kept[i] in kept;
    }
  }

  // The drawn links are exactly those, by ID.
  lemma ProvenanceIsDrawn(s: ModelGraphSnapshot, o: Options)
    requires Project(s, o).Some?
    ensures var r := Project(s, o).value;
            && (forall e :: e in r.provenance <==> Provides(s, r, e))
            && Sorted(r.provenance, ProvenanceKey)
  {
    var r, membership := Project(s, o).value, ResolveFamilyMembership(s.nodes);
    SortBySorts(AllProvenance(r.nodes, r.families, membership), ProvenanceKey);
    forall e ensures e in r.provenance <==> Provides(s, r, e) {
      AllProvenanceExactly(r.nodes, r.families, membership, e);
      MembershipExactly(s, e.child.node.nodeId, e.parent.family);
    }
  }

  // The drawn nodes whose ID belongs to the family.
  ghost function Members(s: ModelGraphSnapshot, nodes: seq<NodeProjection>, f: RawInputFamily): seq<NodeProjection> {
    Filter((p: NodeProjection) => Belongs(s, p.node.nodeId, f), nodes)
  }

  lemma {:induction false} MemberCountExactly(s: ModelGraphSnapshot, nodes: seq<NodeProjection>, f: RawInputFamily)
    requires DistinctIds(RawNodes(s.nodes))
    ensures MemberCount(nodes, ResolveFamilyMembership(s.nodes), f) == |Members(s, nodes, f)|
  {
    if nodes != [] {
      MemberCountExactly(s, nodes[1..], f);
      MembershipExactly(s, nodes[0].node.nodeId, f);
    }
  }

  // A family is drawn where the scheme puts it, or below the ones before it, with the number of its drawn members.
  ghost predicate FamilyDrawnAs(s: ModelGraphSnapshot, o: Options, r: Projection, i: nat, f: FamilyProjection) {
    && f.memberCount == |Members(s, r.nodes, f.family)|
    && f.caption == o.familyCaption(f.family, f.memberCount)
    && (forall l <- s.scheme.layoutOverrides :: l.nodeId == f.projectionId ==> f.x == l.x && f.y == l.y)
    && ((forall l <- s.scheme.layoutOverrides :: l.nodeId != f.projectionId) ==>
          f.x == 170.0 && f.y == 170.0 + i as real * 176.0)
  }

  // The i-th family drawn.
  ghost predicate FamilyInPlace(s: ModelGraphSnapshot, o: Options, r: Projection, i: nat)
    requires i < |r.families| == 5
  {
    && r.families[i].family == [X, U, I, G, P][i]
    && r.families[i].projectionId == "raw-family." + ["X", "U", "I", "G", "P"][i]
    && FamilyDrawnAs(s, o, r, i, r.families[i])
  }

  // Its symbol, and where it is drawn.
  lemma FamilyPlaced(s: ModelGraphSnapshot, nodes: seq<NodeProjection>, membership: Membership, o: Options, i: nat)
    requires i < 5 && LayoutsById(s.scheme.layoutOverrides).Some?
    ensures var f := ProjectFamily(nodes, membership, o, LayoutsById(s.scheme.layoutOverrides).value, i);
            && f.family == [X, U, I, G, P][i] && Symbol(f.family) == ["X", "U", "I", "G", "P"][i]
            && f.projectionId == "raw-family." + Symbol(f.family)
            && (forall l <- s.scheme.layoutOverrides :: l.nodeId == f.projectionId ==> f.x == l.x && f.y == l.y)
            && ((forall l <- s.scheme.layoutOverrides :: l.nodeId != f.projectionId) ==>
                  f.x == 170.0 && f.y == 170.0 + i as real * 176.0)
  {
    LayoutsExactly(s.scheme.layoutOverrides);
  }

  lemma FamilyIsDrawn(s: ModelGraphSnapshot, o: Options, i: nat)
    requires Project(s, o).Some? && i < |Project(s, o).value.families| == 5
    ensures FamilyInPlace(s, o, Project(s, o).value, i)
  {
    var r, overrides := Project(s, o).value, LayoutsById(s.scheme.layoutOverrides).value;
    assert r.families[i] == ProjectFamily(r.nodes, ResolveFamilyMembership(s.nodes), o, overrides, i);
    FamilyPlaced(s, r.nodes, ResolveFamilyMembership(s.nodes), o, i);
    MemberCountExactly(s, r.nodes, FAMILIES[i]);
  }

  // The five families are drawn in their fixed order, unless a layer of nodes was asked for.
  lemma FamiliesAreDrawn(s: ModelGraphSnapshot, o: Options)
    requires Project(s, o).Some?
    ensures var r, shown := Project(s, o).value, o.layer.None? || o.layer == Some(RawInputFamilyLayer);
            if shown then |r.families| == 5 && forall i :: 0 <= i < 5 ==> FamilyInPlace(s, o, r, i)
            else r.families == []
  {
    var r := Project(s, o).value;
    FamiliesShown(r.nodes, ResolveFamilyMembership(s.nodes), o, LayoutsById(s.scheme.layoutOverrides).value);
    if r.families != [] {
      forall i | 0 <= i < 5 ensures FamilyInPlace(s, o, r, i) {
        FamilyIsDrawn(s, o, i);
      }
    }
  }

  lemma FamiliesShown(nodes: seq<NodeProjection>, membership: Membership, o: Options, overrides: Layouts)
    ensures |ProjectFamilies(nodes, membership, o, overrides)| ==
            if o.layer.None? || o.layer == Some(RawInputFamilyLayer) then 5 else 0
  {
  }

  // ----- The extents -----

  lemma {:induction false} NodeMaxima(nodes: seq<NodeProjection>)
    requires nodes != []
    ensures (forall p <- nodes :: p.x <= MaxX(nodes)) && (exists p <- nodes :: p.x == MaxX(nodes))
    ensures (forall p <- nodes :: p.y <= MaxY(nodes)) && (exists p <- nodes :: p.y == MaxY(nodes))
  {
    assert nodes[0] in nodes;
    if |nodes| > 1 {
      var rest := nodes[1..];
      NodeMaxima(rest);
      assert nodes == [nodes[0]] + rest;
      var a :| a in rest && a.x == MaxX(rest);
      var b :| b in rest && b.y == MaxY(rest);
      assert a in nodes && b in nodes;
    }
  }

  lemma {:induction false} FamilyMaxima(families: seq<FamilyProjection>)
    requires families != []
    ensures forall f <- families :: f.x <= FamilyMaxX(families)
    ensures exists f <- families :: f.x == FamilyMaxX(families)
    ensures forall f <- families :: f.y <= FamilyMaxY(families)
    ensures exists f <- families :: f.y == FamilyMaxY(families)
  {
    assert families[0] in families;
    if |families| > 1 {
      var rest := families[1..];
      FamilyMaxima(rest);
      assert families == [families[0]] + rest;
      var a :| a in rest && a.x == FamilyMaxX(rest);
      var b :| b in rest && b.y == FamilyMaxY(rest);
      assert a in families && b in families;
    }
  }

  // The least extent not below the minimum that leaves the padding beyond every circle.
  ghost predicate FitsWidth(r: Projection) {
    && r.extentWidth >= 960.0
    && (forall p <- r.nodes :: p.x + 58.0 + 96.0 <= r.extentWidth)
    && (forall f <- r.families :: f.x + 74.0 + 96.0 <= r.extentWidth)
    && (|| r.extentWidth == 960.0
        || (exists p <- r.nodes :: p.x + 58.0 + 96.0 == r.extentWidth)
        || exists f <- r.families :: f.x + 74.0 + 96.0 == r.extentWidth)
  }

  ghost predicate FitsHeight(r: Projection) {
    && r.extentHeight >= 640.0
    && (forall p <- r.nodes :: p.y + 58.0 + 96.0 <= r.extentHeight)
    && (forall f <- r.families :: f.y + 74.0 + 96.0 <= r.extentHeight)
    && (|| r.extentHeight == 640.0
        || (exists p <- r.nodes :: p.y + 58.0 + 96.0 == r.extentHeight)
        || exists f <- r.families :: f.y + 74.0 + 96.0 == r.extentHeight)
  }

  lemma CanvasFits(s: ModelGraphSnapshot, o: Options)
    requires Project(s, o).Some?
    ensures FitsWidth(Project(s, o).value) && FitsHeight(Project(s, o).value)
  {
    var r := Project(s, o).value;
    if r.nodes != [] {
      NodeMaxima(r.nodes);
    }
    if r.families != [] {
      FamilyMaxima(r.families);
    }
  }
}
