/**
  The edits of an evidence recipe as functions on the recipe, and what they keep: the graph stays closed
  (nothing refers to a missing node or input) and every edge joins ports its operators declare.
 */
module RecipeEdits {
  import opened Wrappers
  import opened JsonValues
  import opened ModelContracts
  import opened Sequences

  datatype Operator = Operator(inputPorts: seq<string>, outputPorts: seq<string>)

  // The installed operators, by the key of their ID and version.
  type Operators = map<string, Operator>

  function Key(operatorId: string, version: string): string {
    operatorId + "\U{001F}" + version
  }

  function NodeId(n: RecipeNode): string { n.nodeId }

  function EdgeId(e: RecipeEdge): string { e.edgeId }

  function BindingId(b: RecipeInputBinding): string { b.bindingId }

  function NodeIds(r: EvidenceRecipe): (ids: set<string>) {
    set n <- r.graph.nodes :: n.nodeId
  }

  function EdgeIds(r: EvidenceRecipe): set<string> {
    set e <- r.graph.edges :: e.edgeId
  }

  function BindingIds(r: EvidenceRecipe): set<string> {
    set b <- r.inputs :: b.bindingId
  }

  // ----- Edits -----

  function WithNodes(r: EvidenceRecipe, nodes: seq<RecipeNode>): EvidenceRecipe {
    r.(graph := r.graph.(nodes := nodes))
  }

  function WithEdges(r: EvidenceRecipe, edges: seq<RecipeEdge>): EvidenceRecipe {
    r.(graph := r.graph.(edges := edges))
  }

  function AddNode(r: EvidenceRecipe, node: RecipeNode): EvidenceRecipe {
    WithNodes(r, r.graph.nodes + [node])
  }

  function AddEdge(r: EvidenceRecipe, edge: RecipeEdge): EvidenceRecipe {
    WithEdges(r, r.graph.edges + [edge])
  }

  function OtherEdge(edgeId: string): RecipeEdge -> bool {
    (e: RecipeEdge) => e.edgeId != edgeId
  }

  function DropEdge(r: EvidenceRecipe, edgeId: string): EvidenceRecipe {
    WithEdges(r, Filter(OtherEdge(edgeId), r.graph.edges))
  }

  function Outside(ids: set<string>): RecipeNode -> bool {
    (n: RecipeNode) => n.nodeId !in ids
  }

  function EdgeOutside(ids: set<string>): RecipeEdge -> bool {
    (e: RecipeEdge) => e.source.nodeId !in ids && e.target.nodeId !in ids
  }

  function OutputOutside(ids: set<string>): RecipeOutputBinding -> bool {
    (o: RecipeOutputBinding) => o.source.nodeId !in ids
  }

  predicate ScoresOn(r: EvidenceRecipe, ids: set<string>) {
    r.scoring.Some? && r.scoring.value.input.Some? && r.scoring.value.input.value.nodeId in ids
  }

  // Nodes, the edges at them and the outputs from them; the scoring is left to the caller.
  function DropNodes(r: EvidenceRecipe, ids: set<string>): EvidenceRecipe {
    r.(graph := RecipeGraph(Filter(Outside(ids), r.graph.nodes), Filter(EdgeOutside(ids), r.graph.edges)),
       outputs := Filter(OutputOutside(ids), r.outputs))
  }

  function RemoveNode(r: EvidenceRecipe, nodeId: string): EvidenceRecipe {
    DropNodes(r, {nodeId}).(scoring := if ScoresOn(r, {nodeId}) then None else r.scoring)
  }

  function Reparameterised(nodeId: string, parameters: seq<Member>): RecipeNode -> RecipeNode {
    (n: RecipeNode) => if n.nodeId == nodeId then n.(parameters := parameters) else n
  }

  function SetParameters(r: EvidenceRecipe, nodeId: string, parameters: seq<Member>): EvidenceRecipe {
    WithNodes(r, Map(Reparameterised(nodeId, parameters), r.graph.nodes))
  }

  function AddInput(r: EvidenceRecipe, input: RecipeInputBinding, node: RecipeNode): EvidenceRecipe {
    AddNode(r.(inputs := r.inputs + [input]), node)
  }

  // The nodes that read an input.
  function Readers(r: EvidenceRecipe, bindingId: string): set<string> {
    set n <- r.graph.nodes | n.inputBindingId == Some(bindingId) :: n.nodeId
  }

  function OtherInput(bindingId: string): RecipeInputBinding -> bool {
    (b: RecipeInputBinding) => b.bindingId != bindingId
  }

  function DropInput(r: EvidenceRecipe, bindingId: string): EvidenceRecipe {
    var ids := Readers(r, bindingId);
    DropNodes(r, ids).(
      inputs := Filter(OtherInput(bindingId), r.inputs),
      scoring := if ScoresOn(r, ids) then Some(r.scoring.value.(input := None)) else r.scoring)
  }

  // ----- Closure -----

  ghost predicate Closed(r: EvidenceRecipe) {
    && UniqueBy(r.graph.nodes, NodeId)
    && UniqueBy(r.graph.edges, EdgeId)
    && UniqueBy(r.inputs, BindingId)
    && (forall e <- r.graph.edges :: e.source.nodeId in NodeIds(r) && e.target.nodeId in NodeIds(r))
    && (forall o <- r.outputs :: o.source.nodeId in NodeIds(r))
    && (r.scoring.Some? && r.scoring.value.input.Some? ==> r.scoring.value.input.value.nodeId in NodeIds(r))
    && (forall n <- r.graph.nodes :: n.inputBindingId.Some? ==> n.inputBindingId.value in BindingIds(r))
  }

  // Some node of that ID has an installed operator that declares the port.
  predicate DeclaresOutput(r: EvidenceRecipe, operators: Operators, port: NodePortReference) {
    exists n <- r.graph.nodes :: n.nodeId == port.nodeId && OperatorHas(n, operators, port.portId, false)
  }

  predicate DeclaresInput(r: EvidenceRecipe, operators: Operators, port: NodePortReference) {
    exists n <- r.graph.nodes :: n.nodeId == port.nodeId && OperatorHas(n, operators, port.portId, true)
  }

  predicate OperatorHas(n: RecipeNode, operators: Operators, portId: string, asInput: bool) {
    var key := Key(n.operatorId, n.operatorVersion);
    key in operators && portId in (if asInput then operators[key].inputPorts else operators[key].outputPorts)
  }

  ghost predicate PortsDeclared(r: EvidenceRecipe, operators: Operators) {
    forall e <- r.graph.edges :: DeclaresOutput(r, operators, e.source) && DeclaresInput(r, operators, e.target)
  }

  lemma AddNodeKeeps(r: EvidenceRecipe, node: RecipeNode)
    requires Closed(r)
    requires node.inputBindingId.Some? ==> node.inputBindingId.value in BindingIds(r)
    ensures Closed(AddNode(r, node)) <==> node.nodeId !in NodeIds(r)
  {
    var added := AddNode(r, node);
    UniqueAppend(r.graph.nodes, node, NodeId);
    assert added.graph.nodes[|r.graph.nodes|] == node;
    assert forall n <- r.graph.nodes :: n in added.graph.nodes;
    assert NodeIds(added) == NodeIds(r) + {node.nodeId};
  }

  lemma AddNodePorts(r: EvidenceRecipe, node: RecipeNode, operators: Operators)
    ensures PortsDeclared(r, operators) ==> PortsDeclared(AddNode(r, node), operators)
  {
    assert forall n <- r.graph.nodes :: n in AddNode(r, node).graph.nodes;
  }

  lemma AddEdgeKeeps(r: EvidenceRecipe, edge: RecipeEdge)
    requires Closed(r)
    ensures Closed(AddEdge(r, edge)) <==>
            && edge.source.nodeId in NodeIds(r) && edge.target.nodeId in NodeIds(r)
            && forall e <- r.graph.edges :: e.edgeId != edge.edgeId
  {
    var added := AddEdge(r, edge);
    UniqueAppend(r.graph.edges, edge, EdgeId);
    assert edge in added.graph.edges;
    assert forall e <- r.graph.edges :: e in added.graph.edges;
    assert NodeIds(added) == NodeIds(r);
  }

  lemma AddEdgePorts(r: EvidenceRecipe, edge: RecipeEdge, operators: Operators)
    requires PortsDeclared(r, operators)
    ensures PortsDeclared(AddEdge(r, edge), operators) <==>
            DeclaresOutput(r, operators, edge.source) && DeclaresInput(r, operators, edge.target)
  {
    var added := AddEdge(r, edge);
    assert edge in added.graph.edges;
    forall e ensures DeclaresOutput(added, operators, e) == DeclaresOutput(r, operators, e)
                     && DeclaresInput(added, operators, e) == DeclaresInput(r, operators, e)
    {
    }
  }

  lemma DropEdgeKeeps(r: EvidenceRecipe, edgeId: string, operators: Operators)
    requires Closed(r)
    ensures Closed(DropEdge(r, edgeId))
    ensures PortsDeclared(r, operators) ==> PortsDeclared(DropEdge(r, edgeId), operators)
  {
    UniqueFilter(OtherEdge(edgeId), r.graph.edges, EdgeId);
    assert NodeIds(DropEdge(r, edgeId)) == NodeIds(r);
  }

  lemma DropNodesIds(r: EvidenceRecipe, ids: set<string>)
    ensures NodeIds(DropNodes(r, ids)) == NodeIds(r) - ids
  {
    var dropped := DropNodes(r, ids);
    forall id | id in NodeIds(r) - ids ensures id in NodeIds(dropped) {
      var n :| n in r.graph.nodes && n.nodeId == id;
      assert n in dropped.graph.nodes;
    }
  }

  lemma DropNodesKeeps(r: EvidenceRecipe, ids: set<string>)
    requires Closed(r)
    ensures Closed(DropNodes(r, ids)) <==> !ScoresOn(r, ids)
    ensures Closed(DropNodes(r, ids).(scoring := None))
  {
    DropNodesIds(r, ids);
    UniqueFilter(Outside(ids), r.graph.nodes, NodeId);
    UniqueFilter(EdgeOutside(ids), r.graph.edges, EdgeId);
    assert NodeIds(DropNodes(r, ids).(scoring := None)) == NodeIds(r) - ids;
  }

  lemma DropNodesPorts(r: EvidenceRecipe, ids: set<string>, operators: Operators)
    requires PortsDeclared(r, operators)
    ensures PortsDeclared(DropNodes(r, ids), operators)
  {
    var dropped := DropNodes(r, ids);
    forall e <- dropped.graph.edges
      ensures DeclaresOutput(dropped, operators, e.source) && DeclaresInput(dropped, operators, e.target)
    {
      assert e in r.graph.edges;
      var n :| n in r.graph.nodes && n.nodeId == e.source.nodeId && OperatorHas(n, operators, e.source.portId, false);
      var m :| m in r.graph.nodes && m.nodeId == e.target.nodeId && OperatorHas(m, operators, e.target.portId, true);
      assert n in dropped.graph.nodes && m in dropped.graph.nodes;
    }
  }

  lemma RemoveNodeKeeps(r: EvidenceRecipe, nodeId: string, operators: Operators)
    requires Closed(r)
    ensures Closed(RemoveNode(r, nodeId))
    ensures PortsDeclared(r, operators) ==> PortsDeclared(RemoveNode(r, nodeId), operators)
  {
    DropNodesKeeps(r, {nodeId});
    if PortsDeclared(r, operators) {
      DropNodesPorts(r, {nodeId}, operators);
      SamePorts(DropNodes(r, {nodeId}), RemoveNode(r, nodeId), operators);
    }
  }

  lemma SamePorts(r: EvidenceRecipe, s: EvidenceRecipe, operators: Operators)
    requires s.graph == r.graph
    ensures PortsDeclared(r, operators) ==> PortsDeclared(s, operators)
  {
    assert forall port :: DeclaresOutput(r, operators, port) == DeclaresOutput(s, operators, port);
    assert forall port :: DeclaresInput(r, operators, port) == DeclaresInput(s, operators, port);
  }

  // Every node is still there, up to its parameters.
  lemma ReparameterisedNode(r: EvidenceRecipe, nodeId: string, parameters: seq<Member>, n: RecipeNode)
    requires n in r.graph.nodes
    ensures Reparameterised(nodeId, parameters)(n) in SetParameters(r, nodeId, parameters).graph.nodes
  {
    var i :| 0 <= i < |r.graph.nodes| && r.graph.nodes[i] == n;
    assert SetParameters(r, nodeId, parameters).graph.nodes[i] == Reparameterised(nodeId, parameters)(n);
  }

  lemma SetParametersIds(r: EvidenceRecipe, nodeId: string, parameters: seq<Member>)
    ensures NodeIds(SetParameters(r, nodeId, parameters)) == NodeIds(r)
    ensures forall n <- SetParameters(r, nodeId, parameters).graph.nodes ::
              exists m <- r.graph.nodes :: n == Reparameterised(nodeId, parameters)(m)
  {
    var after := SetParameters(r, nodeId, parameters);
    forall n <- after.graph.nodes
      ensures exists m <- r.graph.nodes :: n == Reparameterised(nodeId, parameters)(m)
    {
      var i :| 0 <= i < |after.graph.nodes| && after.graph.nodes[i] == n;
      assert r.graph.nodes[i] in r.graph.nodes && n == Reparameterised(nodeId, parameters)(r.graph.nodes[i]);
    }
    forall n <- r.graph.nodes ensures n.nodeId in NodeIds(after) {
      ReparameterisedNode(r, nodeId, parameters, n);
    }
  }

  lemma SetParametersPorts(r: EvidenceRecipe, nodeId: string, parameters: seq<Member>, operators: Operators)
    requires PortsDeclared(r, operators)
    ensures PortsDeclared(SetParameters(r, nodeId, parameters), operators)
  {
    var after := SetParameters(r, nodeId, parameters);
    forall e <- after.graph.edges
      ensures DeclaresOutput(after, operators, e.source) && DeclaresInput(after, operators, e.target)
    {
      var n :| n in r.graph.nodes && n.nodeId == e.source.nodeId && OperatorHas(n, operators, e.source.portId, false);
      var m :| m in r.graph.nodes && m.nodeId == e.target.nodeId && OperatorHas(m, operators, e.target.portId, true);
      ReparameterisedNode(r, nodeId, parameters, n);
      ReparameterisedNode(r, nodeId, parameters, m);
    }
  }

  lemma SetParametersKeeps(r: EvidenceRecipe, nodeId: string, parameters: seq<Member>, operators: Operators)
    requires Closed(r)
    ensures Closed(SetParameters(r, nodeId, parameters))
    ensures PortsDeclared(r, operators) ==> PortsDeclared(SetParameters(r, nodeId, parameters), operators)
  {
    UniqueMap(Reparameterised(nodeId, parameters), r.graph.nodes, NodeId);
    SetParametersIds(r, nodeId, parameters);
    if PortsDeclared(r, operators) {
      SetParametersPorts(r, nodeId, parameters, operators);
    }
  }

  lemma BindKeeps(r: EvidenceRecipe, input: RecipeInputBinding)
    requires Closed(r)
    ensures Closed(r.(inputs := r.inputs + [input])) <==> input.bindingId !in BindingIds(r)
    ensures BindingIds(r.(inputs := r.inputs + [input])) == BindingIds(r) + {input.bindingId}
  {
    var bound := r.(inputs := r.inputs + [input]);
    UniqueAppend(r.inputs, input, BindingId);
    assert bound.inputs[|r.inputs|] == input;
    assert forall b <- r.inputs :: b in bound.inputs;
    assert BindingIds(bound) == BindingIds(r) + {input.bindingId};
    assert NodeIds(bound) == NodeIds(r);
  }

  lemma AddInputKeeps(r: EvidenceRecipe, input: RecipeInputBinding, node: RecipeNode, operators: Operators)
    requires Closed(r) && node.inputBindingId == Some(input.bindingId)
    ensures Closed(AddInput(r, input, node)) <==> input.bindingId !in BindingIds(r) && node.nodeId !in NodeIds(r)
    ensures PortsDeclared(r, operators) ==> PortsDeclared(AddInput(r, input, node), operators)
  {
    var bound := r.(inputs := r.inputs + [input]);
    BindKeeps(r, input);
    assert NodeIds(bound) == NodeIds(r);
    AddNodePorts(r, node, operators);
    SamePorts(AddNode(r, node), AddInput(r, input, node), operators);
    if input.bindingId !in BindingIds(r) {
      AddNodeKeeps(bound, node);
    } else {
      UniqueAppend(r.inputs, input, BindingId);
    }
  }

  lemma DropInputKeeps(r: EvidenceRecipe, bindingId: string, operators: Operators)
    requires Closed(r)
    ensures Closed(DropInput(r, bindingId))
    ensures PortsDeclared(r, operators) ==> PortsDeclared(DropInput(r, bindingId), operators)
  {
    var ids := Readers(r, bindingId);
    var dropped := DropInput(r, bindingId);
    DropNodesKeeps(r, ids);
    DropNodesIds(r, ids);
    if PortsDeclared(r, operators) {
      DropNodesPorts(r, ids, operators);
      SamePorts(DropNodes(r, ids), dropped, operators);
    }
    UniqueFilter(OtherInput(bindingId), r.inputs, BindingId);
    assert NodeIds(dropped) == NodeIds(DropNodes(r, ids));
    forall n <- dropped.graph.nodes | n.inputBindingId.Some?
      ensures n.inputBindingId.value in BindingIds(dropped)
    {
      assert n in r.graph.nodes && n.nodeId !in ids;
      var b :| b in r.inputs && b.bindingId == n.inputBindingId.value;
      assert b in dropped.inputs;
    }
  }

  // ----- Undoing -----

  predicate Mentions(r: EvidenceRecipe, id: string) {
    || id in NodeIds(r)
    || (exists e <- r.graph.edges :: e.source.nodeId == id || e.target.nodeId == id)
    || (exists o <- r.outputs :: o.source.nodeId == id)
    || ScoresOn(r, {id})
  }

  lemma ClosedMentionsOnlyNodes(r: EvidenceRecipe, id: string)
    requires Closed(r)
    ensures Mentions(r, id) <==> id in NodeIds(r)
  {
  }

  // Dropping nodes changes nothing exactly when none of them is mentioned.
  lemma DropNodesIdle(r: EvidenceRecipe, id: string)
    ensures DropNodes(r, {id}) == r && !ScoresOn(r, {id}) <==> !Mentions(r, id)
  {
    FilterKeepsAll(Outside({id}), r.graph.nodes);
    FilterKeepsAll(EdgeOutside({id}), r.graph.edges);
    FilterKeepsAll(OutputOutside({id}), r.outputs);
    var dropped := DropNodes(r, {id});
    assert dropped == r <==> dropped.graph == r.graph && dropped.outputs == r.outputs;
    assert id !in NodeIds(r) <==> forall n <- r.graph.nodes :: Outside({id})(n);
  }

  lemma DropNodesOfAdded(r: EvidenceRecipe, node: RecipeNode, ids: set<string>)
    requires node.nodeId in ids
    ensures DropNodes(AddNode(r, node), ids) == DropNodes(r, ids)
  {
    FilterConcat(Outside(ids), r.graph.nodes, [node]);
    assert Filter(Outside(ids), [node]) == [];
    assert Filter(Outside(ids), r.graph.nodes) + [] == Filter(Outside(ids), r.graph.nodes);
  }

  // Removing a just-added node restores the recipe exactly when the recipe did not mention its ID.
  lemma RemoveUndoesAdd(r: EvidenceRecipe, node: RecipeNode)
    ensures RemoveNode(AddNode(r, node), node.nodeId) == r <==> !Mentions(r, node.nodeId)
  {
    DropNodesOfAdded(r, node, {node.nodeId});
    DropNodesIdle(r, node.nodeId);
    assert ScoresOn(AddNode(r, node), {node.nodeId}) == ScoresOn(r, {node.nodeId});
  }

  // Removing a just-added edge restores the recipe exactly when its ID was new.
  lemma DropUndoesConnect(r: EvidenceRecipe, edge: RecipeEdge)
    ensures DropEdge(AddEdge(r, edge), edge.edgeId) == r <==> forall e <- r.graph.edges :: e.edgeId != edge.edgeId
  {
    var p := OtherEdge(edge.edgeId);
    FilterConcat(p, r.graph.edges, [edge]);
    assert Filter(p, [edge]) == [];
    assert Filter(p, r.graph.edges) + [] == Filter(p, r.graph.edges);
    FilterKeepsAll(p, r.graph.edges);
    assert DropEdge(AddEdge(r, edge), edge.edgeId) == r <==> Filter(p, r.graph.edges) == r.graph.edges;
  }

  predicate Unused(r: EvidenceRecipe, bindingId: string, nodeId: string) {
    && bindingId !in BindingIds(r)
    && (forall n <- r.graph.nodes :: n.inputBindingId != Some(bindingId))
    && !Mentions(r, nodeId)
  }

  // Removing a just-added raw input restores the recipe exactly when neither of its IDs was in use.
  lemma DropUndoesAddInput(r: EvidenceRecipe, input: RecipeInputBinding, node: RecipeNode)
    requires node.inputBindingId == Some(input.bindingId)
    ensures DropInput(AddInput(r, input, node), input.bindingId) == r <==> Unused(r, input.bindingId, node.nodeId)
  {
    var added := AddInput(r, input, node);
    var ids := Readers(added, input.bindingId);
    var p := OtherInput(input.bindingId);
    var back := DropInput(added, input.bindingId);
    assert node in added.graph.nodes;
    assert ids == Readers(r, input.bindingId) + {node.nodeId} by {
      assert forall n <- r.graph.nodes :: n in added.graph.nodes;
    }
    FilterConcat(p, r.inputs, [input]);
    assert Filter(p, [input]) == [];
    assert back.inputs == Filter(p, r.inputs);
    FilterKeepsAll(p, r.inputs);
    DropNodesOfAdded(r.(inputs := added.inputs), node, ids);
    assert back.graph == DropNodes(r, ids).graph && back.outputs == DropNodes(r, ids).outputs;
    FilterKeepsAll(Outside(ids), r.graph.nodes);
    if back == r {
      forall n <- r.graph.nodes ensures n.inputBindingId != Some(input.bindingId) {
        assert n.nodeId !in ids;
      }
      assert ids == {node.nodeId};
      DropNodesIdle(r, node.nodeId);
      assert !ScoresOn(r, ids);
    }
    if Unused(r, input.bindingId, node.nodeId) {
      assert ids == {node.nodeId};
      DropNodesIdle(r, node.nodeId);
    }
  }
}
