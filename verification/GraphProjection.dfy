/**
  The drawn graph: filtering, placing and linking nodes, and the overlay that moves dragged nodes
  without projecting again.  Canvas coordinates are reals.
 */
module GraphProjection {
  import opened Wrappers
  import opened ModelContracts
  import opened Sequences
  import opened GraphFamilies

  datatype ViewMode = ActiveOnly | ActiveAndInactive | AllGlobalNodes

  datatype Layer = RawInputFamilyLayer | ExtractedDataLayer | EvidenceLayer | SubSkillLayer | CompetencyLayer

  const NODE_DIAMETER: real := 116.0
  const FAMILY_DIAMETER: real := 148.0
  const CANVAS_PADDING: real := 96.0
  const MINIMUM_EXTENT_WIDTH: real := 960.0
  const MINIMUM_EXTENT_HEIGHT: real := 640.0
  const FAMILY_GAP: real := 28.0

  // search is the trimmed search text's test of one string, when there is search text; the captions are the
  // texts of a drawn node and of a family, which do not depend on positions.
  datatype Options = Options(
    viewMode: ViewMode,
    search: Option<string -> bool>,
    layer: Option<Layer>,
    group: Option<string>,
    active: Option<bool>,
    selectedNodeIds: set<string>,
    nodeCaption: (ModelNode, bool, bool) -> string,
    familyCaption: (RawInputFamily, nat) -> string)

  datatype NodeWithLayout = NodeWithLayout(node: ModelNode, layout: NodeLayout)

  datatype NodeProjection = NodeProjection(
    node: ModelNode,
    x: real,
    y: real,
    isActive: bool,
    isOutput: bool,
    isArchived: bool,
    isSelected: bool,
    caption: string,
    opacity: real,
    layoutOffsetX: real,
    layoutOffsetY: real)

  datatype FamilyProjection = FamilyProjection(
    projectionId: string,
    family: RawInputFamily,
    x: real,
    y: real,
    memberCount: nat,
    caption: string)

  datatype EdgeProjection = EdgeProjection(
    edge: ModelGraphEdge,
    parent: NodeProjection,
    child: NodeProjection,
    isActive: bool)

  datatype ProvenanceEdge = ProvenanceEdge(parent: FamilyProjection, child: NodeProjection, isActive: bool) {
    function EdgeId(): string {
      "provenance." + parent.projectionId + "." + child.node.nodeId
    }
  }

  datatype Projection = Projection(
    nodes: seq<NodeProjection>,
    edges: seq<EdgeProjection>,
    families: seq<FamilyProjection>,
    provenance: seq<ProvenanceEdge>,
    extentWidth: real,
    extentHeight: real)

  // ----- Layers and filters -----

  function LayerOf(node: ModelNode): Layer {
    match node.definition
    case RawInput(_, _, _, _) => ExtractedDataLayer
    case Evidence(_, _, _, _, _, _, _, _, _, _, _) => EvidenceLayer
    case Bn(role, _, _, _, _, _, _, _, _) =>
      if role.AggregateCompetency? then CompetencyLayer else SubSkillLayer
  }

  function LayerOffsetX(layer: Layer): real {
    match layer
    case ExtractedDataLayer => 300.0
    case EvidenceLayer => 300.0
    case SubSkillLayer => 800.0
    case CompetencyLayer => 1400.0
    case RawInputFamilyLayer => 0.0
  }

  predicate IncludeByView(node: ModelNode, activeIds: seq<string>, mode: ViewMode) {
    match mode
    case ActiveOnly => node.nodeId in activeIds
    case ActiveAndInactive => node.lifecycle.Active?
    case AllGlobalNodes => true
  }

  predicate IncludeByFilters(node: ModelNode, activeIds: seq<string>, o: Options) {
    if o.layer == Some(RawInputFamilyLayer) then false
    else if o.layer.Some? && LayerOf(node) != o.layer.value then false
    else if o.group.Some? && node.group != o.group then false
    else if o.active.Some? && (node.nodeId in activeIds) != o.active.value then false
    else if o.search.None? then true
    else
      var matches := o.search.value;
      || matches(node.nodeId) || matches(node.name) || matches(node.shortName) || matches(node.description)
      || (node.group.Some? && matches(node.group.value))
      || (exists i :: 0 <= i < |node.tags| && matches(node.tags[i]))
  }

  predicate Included(s: ModelGraphSnapshot, o: Options, node: ModelNode) {
    IncludeByView(node, s.scheme.activeClosure, o.viewMode) && IncludeByFilters(node, s.scheme.activeClosure, o)
  }

  // ----- Placing nodes -----

  type Layouts = map<string, NodeLayout>

  // The dictionary of a list of layouts by node ID; a repeated ID is an error.
  function LayoutsById(layouts: seq<NodeLayout>): Option<Layouts> {
    if layouts == [] then Some(map[])
    else
      match LayoutsById(layouts[1..])
      case None => None
      case Some(rest) =>
        if layouts[0].nodeId in rest then None else Some(rest[layouts[0].nodeId := layouts[0]])
  }

  function Placed(overrides: Layouts, node: ModelNode): NodeWithLayout {
    NodeWithLayout(node, if node.nodeId in overrides then overrides[node.nodeId] else node.globalLayout)
  }

  function AllLayouts(s: ModelGraphSnapshot, overrides: Layouts): seq<NodeWithLayout> {
    Map(n => Placed(overrides, n), s.nodes)
  }

  function ItemId(item: NodeWithLayout): string {
    item.node.nodeId
  }

  function Candidates(s: ModelGraphSnapshot, o: Options, overrides: Layouts): seq<NodeWithLayout> {
    SortBy(Filter((item: NodeWithLayout) => Included(s, o, item.node), AllLayouts(s, overrides)), ItemId)
  }

  function Min(a: real, b: real): real { if a <= b then a else b }

  function Max(a: real, b: real): real { if a >= b then a else b }

  function MinimumX(items: seq<NodeWithLayout>): real {
    if items == [] then CANVAS_PADDING
    else
      var x := items[0].layout.x + LayerOffsetX(LayerOf(items[0].node));
      if |items| == 1 then x else Min(x, MinimumX(items[1..]))
  }

  function MinimumY(items: seq<NodeWithLayout>): real {
    if items == [] then CANVAS_PADDING
    else if |items| == 1 then items[0].layout.y
    else Min(items[0].layout.y, MinimumY(items[1..]))
  }

  // The shift that brings the least coordinate of all nodes up to the canvas padding.
  function NormalizingOffset(minimum: real): real {
    if minimum < CANVAS_PADDING then CANVAS_PADDING - minimum else 0.0
  }

  function OffsetX(s: ModelGraphSnapshot, overrides: Layouts): real {
    NormalizingOffset(MinimumX(AllLayouts(s, overrides)))
  }

  function OffsetY(s: ModelGraphSnapshot, overrides: Layouts): real {
    NormalizingOffset(MinimumY(AllLayouts(s, overrides)))
  }

  function ProjectNode(s: ModelGraphSnapshot, o: Options, item: NodeWithLayout, offsetX: real,
                       offsetY: real): NodeProjection {
    var node := item.node;
    var active := node.nodeId in s.scheme.activeClosure;
    var output := node.nodeId in s.scheme.outputNodeIds;
    var archived := node.lifecycle.Archived?;
    NodeProjection(
      node,
      item.layout.x + LayerOffsetX(LayerOf(node)) + offsetX,
      item.layout.y + offsetY,
      active,
      output,
      archived,
      node.nodeId in o.selectedNodeIds,
      o.nodeCaption(node, active, output),
      if archived then 0.24 else if active then 1.0 else 0.38,
      LayerOffsetX(LayerOf(node)) + offsetX,
      offsetY)
  }

  function ProjectNodes(s: ModelGraphSnapshot, o: Options, overrides: Layouts): seq<NodeProjection> {
    var offsetX, offsetY := OffsetX(s, overrides), OffsetY(s, overrides);
    Map(item => ProjectNode(s, o, item, offsetX, offsetY), Candidates(s, o, overrides))
  }

  // ----- Families -----

  type Membership = map<string, set<RawInputFamily>>

  function RawNodes(nodes: seq<ModelNode>): (raws: seq<ModelNode>)
    ensures AllRaw(raws)
  {
    var raws := Filter(IsRaw, nodes);
    assert forall i :: 0 <= i < |raws| ==> raws[i] in raws && IsRaw(raws[i]);
    raws
  }

  function MembershipOf(raws: seq<ModelNode>, index: SourceIndex): Membership
    requires AllRaw(raws) && Indexed(index)
    requires forall i :: 0 <= i < |raws| ==> raws[i].definition.source.sourceId in index
  {
    if raws == [] then map[]
    else
      assert forall i :: 0 <= i < |raws[1..]| ==> raws[1..][i] == raws[i + 1];
      MembershipOf(raws[1..], index)[raws[0].nodeId := ResolveFamilies(SourceOf(raws[0]), index, {})]
  }

  function ResolveFamilyMembership(nodes: seq<ModelNode>): Membership {
    MembershipOf(RawNodes(nodes), IndexSources(RawNodes(nodes)))
  }

  function FamiliesOf(membership: Membership, nodeId: string): set<RawInputFamily> {
    if nodeId in membership then membership[nodeId] else {}
  }

  const FAMILIES: seq<RawInputFamily> := [X, U, I, G, P]

  function Symbol(family: RawInputFamily): string {
    match family
    case X => "X"
    case U => "U"
    case I => "I"
    case G => "G"
    case P => "P"
    case PilotCamera => "PilotCamera"
  }

  function MemberCount(nodes: seq<NodeProjection>, membership: Membership, family: RawInputFamily): nat {
    if nodes == [] then 0
    else (if family in FamiliesOf(membership, nodes[0].node.nodeId) then 1 else 0)
         + MemberCount(nodes[1..], membership, family)
  }

  function ProjectFamily(nodes: seq<NodeProjection>, membership: Membership, o: Options, overrides: Layouts,
                         i: nat): FamilyProjection
    requires i < |FAMILIES|
  {
    var family := FAMILIES[i];
    var id := "raw-family." + Symbol(family);
    var count := MemberCount(nodes, membership, family);
    var firstY := CANVAS_PADDING + FAMILY_DIAMETER / 2.0;
    FamilyProjection(
      id,
      family,
      if id in overrides then overrides[id].x else CANVAS_PADDING + FAMILY_DIAMETER / 2.0,
      if id in overrides then overrides[id].y else firstY + i as real * (FAMILY_DIAMETER + FAMILY_GAP),
      count,
      o.familyCaption(family, count))
  }

  function ShowFamilies(o: Options): bool {
    o.layer.None? || o.layer.value.RawInputFamilyLayer?
  }

  function ProjectFamilies(nodes: seq<NodeProjection>, membership: Membership, o: Options,
                           overrides: Layouts): seq<FamilyProjection> {
    if ShowFamilies(o)
    then seq(|FAMILIES|, i requires 0 <= i < |FAMILIES| => ProjectFamily(nodes, membership, o, overrides, i))
    else []
  }

  // ----- Links -----

  predicate HasNode(nodes: seq<NodeProjection>, id: string) {
    exists i :: 0 <= i < |nodes| && nodes[i].node.nodeId == id
  }

  function NodeAt(nodes: seq<NodeProjection>, id: string): (n: NodeProjection)
    requires HasNode(nodes, id)
    ensures n in nodes && n.node.nodeId == id
  {
    if nodes[0].node.nodeId == id then nodes[0]
    else
      assert forall i :: 1 <= i < |nodes| ==> nodes[i] == nodes[1..][i - 1];
      NodeAt(nodes[1..], id)
  }

  function EdgeKey(e: ModelGraphEdge): string {
    e.edgeId
  }

  function ProvenanceKey(e: ProvenanceEdge): string {
    e.EdgeId()
  }

  function DrawnEdges(s: ModelGraphSnapshot, nodes: seq<NodeProjection>): (edges: seq<ModelGraphEdge>)
    ensures forall i :: 0 <= i < |edges| ==> HasNode(nodes, edges[i].parentId) && HasNode(nodes, edges[i].childId)
  {
    var drawn := Filter((e: ModelGraphEdge) => HasNode(nodes, e.parentId) && HasNode(nodes, e.childId), s.edges);
    var edges := SortBy(drawn, EdgeKey);
    assert forall i :: 0 <= i < |edges| ==> edges[i] in drawn;
    edges
  }

  function ProjectEdges(s: ModelGraphSnapshot, nodes: seq<NodeProjection>): seq<EdgeProjection> {
    var edges := DrawnEdges(s, nodes);
    seq(|edges|, i requires 0 <= i < |edges| =>
      EdgeProjection(edges[i], NodeAt(nodes, edges[i].parentId), NodeAt(nodes, edges[i].childId),
                     edges[i].parentId in s.scheme.activeClosure && edges[i].childId in s.scheme.activeClosure))
  }

  // The links of one raw node, in the fixed order of the drawn families.
  function NodeProvenance(families: seq<FamilyProjection>, node: NodeProjection,
                          found: set<RawInputFamily>): seq<ProvenanceEdge> {
    Map(f => ProvenanceEdge(f, node, node.isActive),
        Filter((f: FamilyProjection) => f.family in found, families))
  }

  function AllProvenance(nodes: seq<NodeProjection>, families: seq<FamilyProjection>,
                         membership: Membership): seq<ProvenanceEdge> {
    if nodes == [] then []
    else
      (if IsRaw(nodes[0].node)
       then NodeProvenance(families, nodes[0], FamiliesOf(membership, nodes[0].node.nodeId))
       else [])
      + AllProvenance(nodes[1..], families, membership)
  }

  function ProjectProvenance(nodes: seq<NodeProjection>, families: seq<FamilyProjection>,
                             membership: Membership): seq<ProvenanceEdge> {
    SortBy(AllProvenance(nodes, families, membership), ProvenanceKey)
  }

  // ----- Extents -----

  function MaxX(nodes: seq<NodeProjection>): real
    requires nodes != []
  {
    if |nodes| == 1 then nodes[0].x else Max(nodes[0].x, MaxX(nodes[1..]))
  }

  function MaxY(nodes: seq<NodeProjection>): real
    requires nodes != []
  {
    if |nodes| == 1 then nodes[0].y else Max(nodes[0].y, MaxY(nodes[1..]))
  }

  function FamilyMaxX(families: seq<FamilyProjection>): real
    requires families != []
  {
    if |families| == 1 then families[0].x else Max(families[0].x, FamilyMaxX(families[1..]))
  }

  function FamilyMaxY(families: seq<FamilyProjection>): real
    requires families != []
  {
    if |families| == 1 then families[0].y else Max(families[0].y, FamilyMaxY(families[1..]))
  }

  function ExtentWidth(nodes: seq<NodeProjection>, families: seq<FamilyProjection>): real {
    Max(MINIMUM_EXTENT_WIDTH,
        Max(if nodes == [] then 0.0 else MaxX(nodes) + NODE_DIAMETER / 2.0,
            if families == [] then 0.0 else FamilyMaxX(families) + FAMILY_DIAMETER / 2.0) + CANVAS_PADDING)
  }

  function ExtentHeight(nodes: seq<NodeProjection>, families: seq<FamilyProjection>): real {
    Max(MINIMUM_EXTENT_HEIGHT,
        Max(if nodes == [] then 0.0 else MaxY(nodes) + NODE_DIAMETER / 2.0,
            if families == [] then 0.0 else FamilyMaxY(families) + FAMILY_DIAMETER / 2.0) + CANVAS_PADDING)
  }

  // ----- The full projection -----

  predicate DistinctIds(nodes: seq<ModelNode>) {
    forall i, j :: 0 <= i < j < |nodes| ==> nodes[i].nodeId != nodes[j].nodeId
  }

  predicate DistinctDrawn(nodes: seq<NodeProjection>) {
    forall i, j :: 0 <= i < j < |nodes| ==> nodes[i].node.nodeId != nodes[j].node.nodeId
  }

  function Assemble(s: ModelGraphSnapshot, nodes: seq<NodeProjection>, families: seq<FamilyProjection>): Projection {
    Projection(
      nodes,
      ProjectEdges(s, nodes),
      families,
      ProjectProvenance(nodes, families, ResolveFamilyMembership(s.nodes)),
      ExtentWidth(nodes, families),
      ExtentHeight(nodes, families))
  }

  function ProjectOver(s: ModelGraphSnapshot, o: Options, overrides: Layouts): Projection {
    var nodes := ProjectNodes(s, o, overrides);
    Assemble(s, nodes, ProjectFamilies(nodes, ResolveFamilyMembership(s.nodes), o, overrides))
  }

  // Each dictionary of the projection fails on a repeated ID: overrides, drawn nodes, raw nodes.
  function Project(s: ModelGraphSnapshot, o: Options): Option<Projection> {
    match LayoutsById(s.scheme.layoutOverrides)
    case None => None
    case Some(overrides) =>
      if !DistinctDrawn(ProjectNodes(s, o, overrides)) || !DistinctIds(RawNodes(s.nodes)) then None
      else Some(ProjectOver(s, o, overrides))
  }
}
