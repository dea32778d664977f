/**
  Dragging: the view keeps the layouts still waiting to be saved and moves the drawn nodes over the
  last projection.  The overlay is proved equal to projecting again with those layouts merged in.
 */
module LayoutOverlay {
  import opened Wrappers
  import opened ModelContracts
  import opened Sequences
  import opened GraphFamilies
  import opened GraphProjection

  function Moved(pending: Layouts, n: NodeProjection): NodeProjection {
    if n.node.nodeId in pending
    then n.(x := pending[n.node.nodeId].x + n.layoutOffsetX, y := pending[n.node.nodeId].y + n.layoutOffsetY)
    else n
  }

  function MovedFamily(pending: Layouts, f: FamilyProjection): FamilyProjection {
    if f.projectionId in pending
    then f.(x := pending[f.projectionId].x, y := pending[f.projectionId].y)
    else f
  }

  function MovedAll(pending: Layouts, nodes: seq<NodeProjection>): seq<NodeProjection> {
    Map(n => Moved(pending, n), nodes)
  }

  function MovedFamiliesAll(pending: Layouts, families: seq<FamilyProjection>): seq<FamilyProjection> {
    Map(f => MovedFamily(pending, f), families)
  }

  predicate HasFamily(families: seq<FamilyProjection>, id: string) {
    exists i :: 0 <= i < |families| && families[i].projectionId == id
  }

  function FamilyAt(families: seq<FamilyProjection>, id: string): (f: FamilyProjection)
    requires HasFamily(families, id)
    ensures f in families && f.projectionId == id
  {
    if families[0].projectionId == id then families[0]
    else
      assert forall i :: 1 <= i < |families| ==> families[i] == families[1..][i - 1];
      FamilyAt(families[1..], id)
  }

  // Every link of the projection joins nodes and families of the projection, and IDs do not repeat.
  ghost predicate Linked(r: Projection) {
    && DistinctDrawn(r.nodes)
    && (forall i, j :: 0 <= i < j < |r.families| ==> r.families[i].projectionId != r.families[j].projectionId)
    && (forall i :: 0 <= i < |r.edges| ==> r.edges[i].parent in r.nodes && r.edges[i].child in r.nodes)
    && (forall i :: 0 <= i < |r.provenance| ==>
          r.provenance[i].parent in r.families && r.provenance[i].child in r.nodes)
  }

  lemma MovedKeepsIds(pending: Layouts, nodes: seq<NodeProjection>, id: string)
    ensures HasNode(MovedAll(pending, nodes), id) <==> HasNode(nodes, id)
  {
    var moved := MovedAll(pending, nodes);
    assert forall i :: 0 <= i < |nodes| ==> moved[i].node.nodeId == nodes[i].node.nodeId;
  }

  lemma MovedFamiliesKeepIds(pending: Layouts, families: seq<FamilyProjection>, id: string)
    ensures HasFamily(MovedFamiliesAll(pending, families), id) <==> HasFamily(families, id)
  {
    var moved := MovedFamiliesAll(pending, families);
    assert forall i :: 0 <= i < |families| ==> moved[i].projectionId == families[i].projectionId;
  }

  lemma MembersAreThere(r: Projection)
    requires Linked(r)
    ensures forall i :: 0 <= i < |r.edges| ==>
              HasNode(r.nodes, r.edges[i].parent.node.nodeId) && HasNode(r.nodes, r.edges[i].child.node.nodeId)
    ensures forall i :: 0 <= i < |r.provenance| ==>
              && HasFamily(r.families, r.provenance[i].parent.projectionId)
              && HasNode(r.nodes, r.provenance[i].child.node.nodeId)
  {
  }

  function ApplyPendingLayouts(pending: Layouts, r: Projection): Projection
    requires Linked(r)
  {
    if pending == map[] || (r.nodes == [] && r.families == []) then r
    else
      MembersAreThere(r);
      var nodes := MovedAll(pending, r.nodes);
      var families := MovedFamiliesAll(pending, r.families);
      Projection(
        nodes,
        seq(|r.edges|, i requires 0 <= i < |r.edges| =>
          MovedKeepsIds(pending, r.nodes, r.edges[i].parent.node.nodeId);
          MovedKeepsIds(pending, r.nodes, r.edges[i].child.node.nodeId);
          r.edges[i].(parent := NodeAt(nodes, r.edges[i].parent.node.nodeId),
                      child := NodeAt(nodes, r.edges[i].child.node.nodeId))),
        families,
        seq(|r.provenance|, i requires 0 <= i < |r.provenance| =>
          MovedFamiliesKeepIds(pending, r.families, r.provenance[i].parent.projectionId);
          MovedKeepsIds(pending, r.nodes, r.provenance[i].child.node.nodeId);
          r.provenance[i].(parent := FamilyAt(families, r.provenance[i].parent.projectionId),
                           child := NodeAt(nodes, r.provenance[i].child.node.nodeId))),
        ExtentWidth(nodes, families),
        ExtentHeight(nodes, families))
  }

  // ----- A projection is linked -----

  lemma {:induction false} NodeAtUnique(nodes: seq<NodeProjection>, n: NodeProjection)
    requires DistinctDrawn(nodes) && n in nodes
    ensures HasNode(nodes, n.node.nodeId) && NodeAt(nodes, n.node.nodeId) == n
  {
    if nodes[0] != n {
      assert forall i :: 0 <= i < |nodes[1..]| ==> nodes[1..][i] == nodes[i + 1];
      NodeAtUnique(nodes[1..], n);
    }
  }

  lemma {:induction false} FamilyAtUnique(families: seq<FamilyProjection>, f: FamilyProjection)
    requires forall i, j :: 0 <= i < j < |families| ==> families[i].projectionId != families[j].projectionId
    requires f in families
    ensures HasFamily(families, f.projectionId) && FamilyAt(families, f.projectionId) == f
  {
    if families[0] != f {
      assert forall i :: 0 <= i < |families[1..]| ==> families[1..][i] == families[i + 1];
      FamilyAtUnique(families[1..], f);
    }
  }

  lemma {:induction false} ProvenanceEnds(nodes: seq<NodeProjection>, families: seq<FamilyProjection>,
                                          membership: Membership)
    ensures forall e <- AllProvenance(nodes, families, membership) :: e.parent in families && e.child in nodes
  {
    if nodes != [] {
      ProvenanceEnds(nodes[1..], families, membership);
    }
  }

  lemma ProjectionIsLinked(s: ModelGraphSnapshot, o: Options)
    requires Project(s, o).Some?
    ensures Linked(Project(s, o).value)
  {
    var r := Project(s, o).value;
    ProvenanceEnds(r.nodes, r.families, ResolveFamilyMembership(s.nodes));
    assert forall i :: 0 <= i < |r.provenance| ==> r.provenance[i] in r.provenance;
    FamilyIdsDistinct(r.nodes, ResolveFamilyMembership(s.nodes), o, LayoutsById(s.scheme.layoutOverrides).value);
  }

  lemma FamilyIdsDistinct(nodes: seq<NodeProjection>, membership: Membership, o: Options, overrides: Layouts)
    ensures var families := ProjectFamilies(nodes, membership, o, overrides);
            forall i, j :: 0 <= i < j < |families| ==> families[i].projectionId != families[j].projectionId
  {
    var families := ProjectFamilies(nodes, membership, o, overrides);
    forall i, j | 0 <= i < j < |families|
      ensures families[i].projectionId != families[j].projectionId
    {
      var a, b := Symbol(FAMILIES[i]), Symbol(FAMILIES[j]);
      assert families[i].projectionId == "raw-family." + a && families[j].projectionId == "raw-family." + b;
      assert ("raw-family." + a)[11] == a[0] && ("raw-family." + b)[11] == b[0];
    }
  }

  // ----- Moving commutes with every stage of the projection -----

  lemma {:induction false} NodeAtMoved(pending: Layouts, nodes: seq<NodeProjection>, id: string)
    requires HasNode(nodes, id)
    ensures HasNode(MovedAll(pending, nodes), id)
    ensures NodeAt(MovedAll(pending, nodes), id) == Moved(pending, NodeAt(nodes, id))
  {
    MovedKeepsIds(pending, nodes, id);
    if nodes[0].node.nodeId != id {
      var moved, rest := MovedAll(pending, nodes), nodes[1..];
      assert moved[1..] == MovedAll(pending, rest);
      assert HasNode(rest, id) by {
        var i :| 0 <= i < |nodes| && nodes[i].node.nodeId == id;
        assert rest[i - 1].node.nodeId == id;
      }
      NodeAtMoved(pending, rest, id);
      assert NodeAt(nodes, id) == NodeAt(rest, id);
      assert NodeAt(moved, id) == NodeAt(moved[1..], id);
    }
  }

  lemma {:induction false} FamilyAtMoved(pending: Layouts, families: seq<FamilyProjection>, id: string)
    requires HasFamily(families, id)
    ensures HasFamily(MovedFamiliesAll(pending, families), id)
    ensures FamilyAt(MovedFamiliesAll(pending, families), id) == MovedFamily(pending, FamilyAt(families, id))
  {
    MovedFamiliesKeepIds(pending, families, id);
    var moved := MovedFamiliesAll(pending, families);
    if families[0].projectionId != id {
      assert HasFamily(families[1..], id) by {
        var i :| 0 <= i < |families| && families[i].projectionId == id;
        assert families[1..][i - 1].projectionId == id;
      }
      FamilyAtMoved(pending, families[1..], id);
      assert moved[1..] == MovedFamiliesAll(pending, families[1..]);
    }
  }

  lemma MovedEdges(pending: Layouts, s: ModelGraphSnapshot, nodes: seq<NodeProjection>)
    ensures DrawnEdges(s, MovedAll(pending, nodes)) == DrawnEdges(s, nodes)
    ensures var moved, before, after := MovedAll(pending, nodes), ProjectEdges(s, nodes),
                                        ProjectEdges(s, MovedAll(pending, nodes));
            && |after| == |before|
            && forall i :: 0 <= i < |before| ==>
                 after[i] == before[i].(parent := Moved(pending, before[i].parent),
                                        child := Moved(pending, before[i].child))
  {
    var moved := MovedAll(pending, nodes);
    forall id ensures HasNode(moved, id) == HasNode(nodes, id) {
      MovedKeepsIds(pending, nodes, id);
    }
    FilterSame((e: ModelGraphEdge) => HasNode(nodes, e.parentId) && HasNode(nodes, e.childId),
               (e: ModelGraphEdge) => HasNode(moved, e.parentId) && HasNode(moved, e.childId), s.edges);
    var edges := DrawnEdges(s, nodes);
    forall i | 0 <= i < |edges|
      ensures NodeAt(moved, edges[i].parentId) == Moved(pending, NodeAt(nodes, edges[i].parentId))
      ensures NodeAt(moved, edges[i].childId) == Moved(pending, NodeAt(nodes, edges[i].childId))
    {
      NodeAtMoved(pending, nodes, edges[i].parentId);
      NodeAtMoved(pending, nodes, edges[i].childId);
    }
  }

  function MovedLink(pending: Layouts, e: ProvenanceEdge): ProvenanceEdge {
    ProvenanceEdge(MovedFamily(pending, e.parent), Moved(pending, e.child), e.isActive)
  }

  lemma MovedNodeProvenance(pending: Layouts, families: seq<FamilyProjection>, node: NodeProjection,
                            found: set<RawInputFamily>)
    ensures NodeProvenance(MovedFamiliesAll(pending, families), Moved(pending, node), found) ==
            Map(e => MovedLink(pending, e), NodeProvenance(families, node, found))
  {
    FilterMap((f: FamilyProjection) => MovedFamily(pending, f), (f: FamilyProjection) => f.family in found,
              (f: FamilyProjection) => f.family in found, families);
  }

  lemma {:induction false} MovedProvenance(pending: Layouts, nodes: seq<NodeProjection>,
                                           families: seq<FamilyProjection>, membership: Membership)
    ensures AllProvenance(MovedAll(pending, nodes), MovedFamiliesAll(pending, families), membership) ==
            Map(e => MovedLink(pending, e), AllProvenance(nodes, families, membership))
  {
    if nodes != [] {
      var moved := MovedAll(pending, nodes);
      assert moved[1..] == MovedAll(pending, nodes[1..]);
      MovedProvenance(pending, nodes[1..], families, membership);
      var found := FamiliesOf(membership, nodes[0].node.nodeId);
      MovedNodeProvenance(pending, families, nodes[0], found);
      var head := if IsRaw(nodes[0].node) then NodeProvenance(families, nodes[0], found) else [];
      MapConcat(e => MovedLink(pending, e), head, AllProvenance(nodes[1..], families, membership));
    }
  }

  lemma MovedProvenanceSorted(pending: Layouts, nodes: seq<NodeProjection>,
                              families: seq<FamilyProjection>, membership: Membership)
    ensures ProjectProvenance(MovedAll(pending, nodes), MovedFamiliesAll(pending, families), membership) ==
            Map(e => MovedLink(pending, e), ProjectProvenance(nodes, families, membership))
  {
    MovedProvenance(pending, nodes, families, membership);
    SortMap((e: ProvenanceEdge) => MovedLink(pending, e), AllProvenance(nodes, families, membership),
            ProvenanceKey, ProvenanceKey);
  }

  // The overlay of a projection is the same projection of its moved nodes and families.
  lemma OverlayReassembles(pending: Layouts, s: ModelGraphSnapshot, nodes: seq<NodeProjection>,
                           families: seq<FamilyProjection>)
    requires Linked(Assemble(s, nodes, families))
    ensures ApplyPendingLayouts(pending, Assemble(s, nodes, families)) ==
            Assemble(s, MovedAll(pending, nodes), MovedFamiliesAll(pending, families))
  {
    var moved, movedFamilies := MovedAll(pending, nodes), MovedFamiliesAll(pending, families);
    if pending == map[] || (nodes == [] && families == []) {
      assert moved == nodes && movedFamilies == families;
    } else {
      OverlaidEdges(pending, s, nodes, families);
      OverlaidProvenance(pending, s, nodes, families);
    }
  }

  lemma OverlaidEdges(pending: Layouts, s: ModelGraphSnapshot, nodes: seq<NodeProjection>,
                      families: seq<FamilyProjection>)
    requires Linked(Assemble(s, nodes, families)) && pending != map[] && (nodes != [] || families != [])
    ensures ApplyPendingLayouts(pending, Assemble(s, nodes, families)).edges ==
            ProjectEdges(s, MovedAll(pending, nodes))
  {
    var r := Assemble(s, nodes, families);
    var overlay, after := ApplyPendingLayouts(pending, r).edges, ProjectEdges(s, MovedAll(pending, nodes));
    MovedEdges(pending, s, nodes);
    forall i | 0 <= i < |r.edges| ensures overlay[i] == after[i] {
      OverlaidNode(pending, nodes, r.edges[i].parent);
      OverlaidNode(pending, nodes, r.edges[i].child);
    }
  }

  lemma OverlaidProvenance(pending: Layouts, s: ModelGraphSnapshot, nodes: seq<NodeProjection>,
                           families: seq<FamilyProjection>)
    requires Linked(Assemble(s, nodes, families)) && pending != map[] && (nodes != [] || families != [])
    ensures ApplyPendingLayouts(pending, Assemble(s, nodes, families)).provenance ==
            ProjectProvenance(MovedAll(pending, nodes), MovedFamiliesAll(pending, families),
                              ResolveFamilyMembership(s.nodes))
  {
    var r := Assemble(s, nodes, families);
    var overlay := ApplyPendingLayouts(pending, r).provenance;
    MovedProvenanceSorted(pending, nodes, families, ResolveFamilyMembership(s.nodes));
    forall i | 0 <= i < |r.provenance| ensures overlay[i] == MovedLink(pending, r.provenance[i]) {
      OverlaidNode(pending, nodes, r.provenance[i].child);
      OverlaidFamily(pending, families, r.provenance[i].parent);
    }
  }

  lemma OverlaidNode(pending: Layouts, nodes: seq<NodeProjection>, n: NodeProjection)
    requires DistinctDrawn(nodes) && n in nodes
    ensures HasNode(MovedAll(pending, nodes), n.node.nodeId)
    ensures NodeAt(MovedAll(pending, nodes), n.node.nodeId) == Moved(pending, n)
  {
    NodeAtUnique(nodes, n);
    NodeAtMoved(pending, nodes, n.node.nodeId);
  }

  lemma OverlaidFamily(pending: Layouts, families: seq<FamilyProjection>, f: FamilyProjection)
    requires forall i, j :: 0 <= i < j < |families| ==> families[i].projectionId != families[j].projectionId
    requires f in families
    ensures HasFamily(MovedFamiliesAll(pending, families), f.projectionId)
    ensures FamilyAt(MovedFamiliesAll(pending, families), f.projectionId) == MovedFamily(pending, f)
  {
    FamilyAtUnique(families, f);
    FamilyAtMoved(pending, families, f.projectionId);
  }

  // ----- Projecting again with the pending layouts merged in -----

  // t is s with the pending layouts merged into its overrides, however the merged list is ordered.
  ghost predicate Merged(s: ModelGraphSnapshot, pending: Layouts, t: ModelGraphSnapshot) {
    && t == s.(scheme := s.scheme.(layoutOverrides := t.scheme.layoutOverrides))
    && LayoutsById(s.scheme.layoutOverrides).Some?
    && LayoutsById(t.scheme.layoutOverrides) == Some(LayoutsById(s.scheme.layoutOverrides).value + pending)
  }

  lemma RelaidCandidates(s: ModelGraphSnapshot, o: Options, pending: Layouts, t: ModelGraphSnapshot)
    requires Merged(s, pending, t)
    ensures var before := LayoutsById(s.scheme.layoutOverrides).value;
            var after := LayoutsById(t.scheme.layoutOverrides).value;
            && Candidates(t, o, after) == Map((i: NodeWithLayout) => Placed(after, i.node), Candidates(s, o, before))
            && (forall item <- Candidates(s, o, before) :: item == Placed(before, item.node))
  {
    var before, after := LayoutsById(s.scheme.layoutOverrides).value, LayoutsById(t.scheme.layoutOverrides).value;
    var relay := (i: NodeWithLayout) => Placed(after, i.node);
    var p := (item: NodeWithLayout) => Included(s, o, item.node);
    var q := (item: NodeWithLayout) => Included(t, o, item.node);
    var all := AllLayouts(s, before);
    assert AllLayouts(t, after) == Map(relay, all);
    FilterMap(relay, p, q, all);
    SortMap(relay, Filter(p, all), ItemId, ItemId);
  }

  // One node: merging its pending layout and projecting is projecting and moving.
  lemma MovedItem(s: ModelGraphSnapshot, o: Options, pending: Layouts, t: ModelGraphSnapshot,
                  before: Layouts, node: ModelNode, ox: real, oy: real)
    requires t == s.(scheme := s.scheme.(layoutOverrides := t.scheme.layoutOverrides))
    ensures Moved(pending, ProjectNode(s, o, Placed(before, node), ox, oy)) ==
            ProjectNode(t, o, Placed(before + pending, node), ox, oy)
  {
  }

  lemma MovedItems(s: ModelGraphSnapshot, o: Options, pending: Layouts, t: ModelGraphSnapshot, before: Layouts,
                   items: seq<NodeWithLayout>, ox: real, oy: real, ox': real, oy': real)
    requires t == s.(scheme := s.scheme.(layoutOverrides := t.scheme.layoutOverrides))
    requires forall i :: 0 <= i < |items| ==> items[i] == Placed(before, items[i].node)
    ensures var nodes := Map((i: NodeWithLayout) => ProjectNode(s, o, i, ox, oy), items);
            var again := Map((i: NodeWithLayout) => ProjectNode(t, o, i, ox', oy'),
                             Map((i: NodeWithLayout) => Placed(before + pending, i.node), items));
            && (forall i :: 0 <= i < |items| ==> again[i].node == nodes[i].node)
            && (again == MovedAll(pending, nodes) <==> (ox == ox' && oy == oy') || items == [])
  {
    var nodes := Map((i: NodeWithLayout) => ProjectNode(s, o, i, ox, oy), items);
    var again := Map((i: NodeWithLayout) => ProjectNode(t, o, i, ox', oy'),
                     Map((i: NodeWithLayout) => Placed(before + pending, i.node), items));
    if ox == ox' && oy == oy' {
      forall i | 0 <= i < |nodes| ensures again[i] == Moved(pending, nodes[i]) {
        MovedItem(s, o, pending, t, before, items[i].node, ox, oy);
      }
    } else if items != [] {
      assert again[0].layoutOffsetX != Moved(pending, nodes[0]).layoutOffsetX
          || again[0].layoutOffsetY != Moved(pending, nodes[0]).layoutOffsetY;
    }
  }

  ghost predicate SameOffsets(s: ModelGraphSnapshot, before: Layouts, t: ModelGraphSnapshot, after: Layouts) {
    OffsetX(s, before) == OffsetX(t, after) && OffsetY(s, before) == OffsetY(t, after)
  }

  // The reprojected nodes are the moved ones exactly when both projections shift by the same offsets,
  // or nothing is drawn.
  lemma MovedNodes(s: ModelGraphSnapshot, o: Options, pending: Layouts, t: ModelGraphSnapshot, before: Layouts)
    requires Merged(s, pending, t) && LayoutsById(s.scheme.layoutOverrides) == Some(before)
    ensures var nodes, again := ProjectNodes(s, o, before), ProjectNodes(t, o, before + pending);
            && |again| == |nodes|
            && (forall i :: 0 <= i < |nodes| ==> again[i].node == nodes[i].node)
            && (again == MovedAll(pending, nodes) <==> SameOffsets(s, before, t, before + pending) || nodes == [])
  {
    RelaidCandidates(s, o, pending, t);
    var items := Candidates(s, o, before);
    assert forall i :: 0 <= i < |items| ==> items[i] in items;
    MovedItems(s, o, pending, t, before, items, OffsetX(s, before), OffsetY(s, before),
               OffsetX(t, before + pending), OffsetY(t, before + pending));
  }

  lemma {:induction false} CountByIds(a: seq<NodeProjection>, b: seq<NodeProjection>, membership: Membership,
                                      family: RawInputFamily)
    requires |a| == |b| && forall i :: 0 <= i < |a| ==> a[i].node == b[i].node
    ensures MemberCount(a, membership, family) == MemberCount(b, membership, family)
  {
    if a != [] {
      CountByIds(a[1..], b[1..], membership, family);
    }
  }

  lemma MovedFamilies(nodes: seq<NodeProjection>, again: seq<NodeProjection>, membership: Membership, o: Options,
                      before: Layouts, pending: Layouts)
    requires |again| == |nodes| && forall i :: 0 <= i < |nodes| ==> again[i].node == nodes[i].node
    ensures ProjectFamilies(again, membership, o, before + pending) ==
            MovedFamiliesAll(pending, ProjectFamilies(nodes, membership, o, before))
  {
    forall i | 0 <= i < |FAMILIES|
      ensures MemberCount(again, membership, FAMILIES[i]) == MemberCount(nodes, membership, FAMILIES[i])
    {
      CountByIds(again, nodes, membership, FAMILIES[i]);
    }
  }

  // The drag overlay refines full projection: it equals projecting the snapshot with the pending layouts merged
  // in, exactly when the two projections have the same normalizing offsets (or draw no node at all).
  lemma OverlayIsReprojection(s: ModelGraphSnapshot, o: Options, pending: Layouts, t: ModelGraphSnapshot)
    requires Merged(s, pending, t) && Project(s, o).Some?
    ensures Linked(Project(s, o).value) && Project(t, o).Some?
    ensures var before := LayoutsById(s.scheme.layoutOverrides).value;
            ApplyPendingLayouts(pending, Project(s, o).value) == Project(t, o).value <==>
            SameOffsets(s, before, t, before + pending) || Project(s, o).value.nodes == []
  {
    var before := LayoutsById(s.scheme.layoutOverrides).value;
    var nodes, again := ProjectNodes(s, o, before), ProjectNodes(t, o, before + pending);
    var families := ProjectFamilies(nodes, ResolveFamilyMembership(s.nodes), o, before);
    ProjectionIsLinked(s, o);
    Reprojected(s, o, pending, t, before);
    OverlayReassembles(pending, s, nodes, families);
    MovedNodes(s, o, pending, t, before);
  }

  lemma Reprojected(s: ModelGraphSnapshot, o: Options, pending: Layouts, t: ModelGraphSnapshot, before: Layouts)
    requires Merged(s, pending, t) && LayoutsById(s.scheme.layoutOverrides) == Some(before) && Project(s, o).Some?
    ensures var nodes, again := ProjectNodes(s, o, before), ProjectNodes(t, o, before + pending);
            var families := ProjectFamilies(nodes, ResolveFamilyMembership(s.nodes), o, before);
            && Project(s, o) == Some(Assemble(s, nodes, families))
            && Project(t, o) == Some(Assemble(s, again, MovedFamiliesAll(pending, families)))
  {
    var nodes, again := ProjectNodes(s, o, before), ProjectNodes(t, o, before + pending);
    var membership := ResolveFamilyMembership(s.nodes);
    MovedNodes(s, o, pending, t, before);
    MovedFamilies(nodes, again, membership, o, before, pending);
    SameLinks(s, t, again, MovedFamiliesAll(pending, ProjectFamilies(nodes, membership, o, before)));
  }

  // Links depend on the layouts only through the nodes and families they join.
  lemma SameLinks(s: ModelGraphSnapshot, t: ModelGraphSnapshot, nodes: seq<NodeProjection>,
                  families: seq<FamilyProjection>)
    requires t == s.(scheme := s.scheme.(layoutOverrides := t.scheme.layoutOverrides))
    ensures Assemble(s, nodes, families) == Assemble(t, nodes, families)
  {
    var drawn := (e: ModelGraphEdge) => HasNode(nodes, e.parentId) && HasNode(nodes, e.childId);
    FilterSame(drawn, drawn, s.edges);
    assert DrawnEdges(s, nodes) == DrawnEdges(t, nodes);
    assert ProjectEdges(s, nodes) == ProjectEdges(t, nodes);
  }

  // ----- When dragging leaves the offsets alone -----

  lemma {:induction false} NoShiftX(items: seq<NodeWithLayout>)
    ensures NormalizingOffset(MinimumX(items)) == 0.0 <==>
            forall i :: 0 <= i < |items| ==> items[i].layout.x + LayerOffsetX(LayerOf(items[i].node)) >= CANVAS_PADDING
  {
    if |items| > 1 {
      NoShiftX(items[1..]);
      assert forall i :: 1 <= i < |items| ==> items[i] == items[1..][i - 1];
    }
  }

  lemma {:induction false} NoShiftY(items: seq<NodeWithLayout>)
    ensures NormalizingOffset(MinimumY(items)) == 0.0 <==>
            forall i :: 0 <= i < |items| ==> items[i].layout.y >= CANVAS_PADDING
  {
    if |items| > 1 {
      NoShiftY(items[1..]);
      assert forall i :: 1 <= i < |items| ==> items[i] == items[1..][i - 1];
    }
  }

  lemma DragKeepsOffsets(s: ModelGraphSnapshot, pending: Layouts, t: ModelGraphSnapshot, before: Layouts)
    requires t.nodes == s.nodes && OffsetX(s, before) == 0.0 && OffsetY(s, before) == 0.0
    requires forall id <- pending :: pending[id].x >= NODE_DIAMETER / 2.0 && pending[id].y >= CANVAS_PADDING
    ensures SameOffsets(s, before, t, before + pending)
  {
    var items, again := AllLayouts(s, before), AllLayouts(t, before + pending);
    NoShiftX(items);
    NoShiftY(items);
    NoShiftX(again);
    NoShiftY(again);
    forall i | 0 <= i < |again|
      ensures again[i].layout.x + LayerOffsetX(LayerOf(again[i].node)) >= CANVAS_PADDING
      ensures again[i].layout.y >= CANVAS_PADDING
    {
      assert items[i] == Placed(before, s.nodes[i]);
    }
  }

  // On a graph drawn without a shift, layouts queued by dragging (never left of the node radius) and kept
  // below the top padding are overlaid exactly as a full projection would draw them.
  lemma DragWithinPadding(s: ModelGraphSnapshot, o: Options, pending: Layouts, t: ModelGraphSnapshot)
    requires Merged(s, pending, t) && Project(s, o).Some?
    requires var before := LayoutsById(s.scheme.layoutOverrides).value;
             OffsetX(s, before) == 0.0 && OffsetY(s, before) == 0.0
    requires forall id <- pending :: pending[id].x >= NODE_DIAMETER / 2.0 && pending[id].y >= CANVAS_PADDING
    ensures Linked(Project(s, o).value) && Project(t, o) == Some(ApplyPendingLayouts(pending, Project(s, o).value))
  {
    DragKeepsOffsets(s, pending, t, LayoutsById(s.scheme.layoutOverrides).value);
    OverlayIsReprojection(s, o, pending, t);
  }

  // ----- The view model -----

  // The part of the view model that a drag touches, between two changes of the snapshot or the filters:
  // projecting those gives the same result every time, kept here in projection.
  class ModelStudioViewModel {
    const projection: Projection
    var pendingLayouts: Layouts
    var shown: Projection

    constructor (snapshot: ModelGraphSnapshot, options: Options)
      requires Project(snapshot, options).Some?
      ensures Valid() && Project(snapshot, options) == Some(projection) && pendingLayouts == map[]
    {
      ProjectionIsLinked(snapshot, options);
      projection, pendingLayouts := Project(snapshot, options).value, map[];
      shown := Project(snapshot, options).value;
    }

    // What is shown is always the overlay of the pending layouts.
    ghost predicate Valid()
      reads this
    {
      Linked(projection) && shown == ApplyPendingLayouts(pendingLayouts, projection)
    }

    method Reproject()
      requires Linked(projection)
      modifies this`shown
      ensures Valid()
    {
      shown := ApplyPendingLayouts(pendingLayouts, projection);
    }

    method QueueLayoutUpdate(node: NodeProjection, x: real, y: real)
      requires Valid()
      modifies this
      ensures Valid()
      ensures pendingLayouts == old(pendingLayouts)[node.node.nodeId := DroppedNode(node, x, y)]
    {
      pendingLayouts := pendingLayouts[node.node.nodeId := DroppedNode(node, x, y)];
      Reproject();
    }

    method QueueRawInputFamilyLayoutUpdate(family: FamilyProjection, x: real, y: real)
      requires Valid()
      modifies this
      ensures Valid()
      ensures pendingLayouts == old(pendingLayouts)[family.projectionId := DroppedFamily(family, x, y)]
    {
      pendingLayouts := pendingLayouts[family.projectionId := DroppedFamily(family, x, y)];
      Reproject();
    }
  }

  // The layout a drop at (x, y) queues: never closer to the origin than the radius.
  function DroppedNode(node: NodeProjection, x: real, y: real): NodeLayout {
    NodeLayout(node.node.nodeId,
               Max(NODE_DIAMETER / 2.0, x - node.layoutOffsetX),
               Max(NODE_DIAMETER / 2.0, y - node.layoutOffsetY))
  }

  function DroppedFamily(family: FamilyProjection, x: real, y: real): NodeLayout {
    NodeLayout(family.projectionId, Max(FAMILY_DIAMETER / 2.0, x), Max(FAMILY_DIAMETER / 2.0, y))
  }

  lemma OverlaidNodes(pending: Layouts, r: Projection)
    requires Linked(r)
    ensures ApplyPendingLayouts(pending, r).nodes == MovedAll(pending, r.nodes)
    ensures ApplyPendingLayouts(pending, r).families == MovedFamiliesAll(pending, r.families)
  {
    if pending == map[] {
      assert MovedAll(pending, r.nodes) == r.nodes && MovedFamiliesAll(pending, r.families) == r.families;
    }
  }

  // A family is drawn where it was dropped, up to the radius bound, and no other family nor any node moves.
  lemma DropMovesOneFamily(pending: Layouts, r: Projection, k: nat, x: real, y: real)
    requires Linked(r) && k < |r.families|
    requires forall n <- r.nodes :: n.node.nodeId != r.families[k].projectionId
    ensures var f := r.families[k];
            var before := ApplyPendingLayouts(pending, r);
            var after := ApplyPendingLayouts(pending[f.projectionId := DroppedFamily(f, x, y)], r);
            && |after.families| == |before.families| == |r.families|
            && after.families[k] == f.(x := Max(74.0, x), y := Max(74.0, y))
            && (forall i :: 0 <= i < |r.families| && i != k ==> after.families[i] == before.families[i])
            && after.nodes == before.nodes
  {
    var f := r.families[k];
    var later := pending[f.projectionId := DroppedFamily(f, x, y)];
    OverlaidNodes(pending, r);
    OverlaidNodes(later, r);
    forall i | 0 <= i < |r.nodes| ensures Moved(later, r.nodes[i]) == Moved(pending, r.nodes[i]) {
      assert r.nodes[i] in r.nodes;
    }
  }

  // A drop draws the node where it was dropped, up to the radius bound, and moves no other node.
  lemma DropMovesOneNode(pending: Layouts, r: Projection, k: nat, x: real, y: real)
    requires Linked(r) && k < |r.nodes|
    ensures var n := r.nodes[k];
            var before := ApplyPendingLayouts(pending, r).nodes;
            var after := ApplyPendingLayouts(pending[n.node.nodeId := DroppedNode(n, x, y)], r).nodes;
            && |after| == |before| == |r.nodes|
            && after[k] == n.(x := Max(NODE_DIAMETER / 2.0 + n.layoutOffsetX, x),
                              y := Max(NODE_DIAMETER / 2.0 + n.layoutOffsetY, y))
            && forall i :: 0 <= i < |r.nodes| && i != k ==> after[i] == before[i]
  {
    var n := r.nodes[k];
    OverlaidNodes(pending, r);
    OverlaidNodes(pending[n.node.nodeId := DroppedNode(n, x, y)], r);
  }
}
