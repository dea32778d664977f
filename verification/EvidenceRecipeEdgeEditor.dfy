/** Raw inputs drawn onto and off an evidence node, and whole runs of recipe edits. */
module EvidenceRecipeEdgeEditor {
  import opened Wrappers
  import opened JsonValues
  import opened ModelContracts
  import opened Texts
  import opened RecipeEdits
  import opened EvidenceRecipeEditorModel

  datatype EdgeError = NotEvidence | NotRawInput | BlankBinding | BindingMissing

  datatype ExtractionBindingEdit = ExtractionBindingEdit(recipeInputBindingId: string, updatedRecipe: EvidenceRecipe)

  function InputFor(suffix: string, raw: ModelNode): RecipeInputBinding
    requires raw.definition.RawInput?
  {
    var source := raw.definition.source;
    RecipeInputBinding("input.user." + suffix, Stream, source.sourceId, raw.shortName, source.declaredType, [])
  }

  function ReaderFor(suffix: string): RecipeNode {
    RecipeNode("input-node.user." + suffix, "input.binding", "0.1.0", Some("input.user." + suffix), [])
  }

  // suffix is the fresh GUID of the call.
  function AddRawInput(evidence: ModelNode, raw: ModelNode, suffix: string): Result<ExtractionBindingEdit, EdgeError> {
    if !evidence.definition.Evidence? then Err(NotEvidence)
    else if !raw.definition.RawInput? then Err(NotRawInput)
    else
      Ok(ExtractionBindingEdit(
        "input.user." + suffix, AddInput(evidence.definition.recipe, InputFor(suffix, raw), ReaderFor(suffix))))
  }

  function RemoveRawInput(r: EvidenceRecipe, bindingId: string): Result<EvidenceRecipe, EdgeError> {
    if Blank(bindingId) then Err(BlankBinding)
    else if bindingId !in BindingIds(r) then Err(BindingMissing)
    else Ok(DropInput(r, bindingId))
  }

  // Drawing an extraction edge and deleting it restores a closed recipe exactly when the GUID was unused.
  lemma RemoveRestores(evidence: ModelNode, raw: ModelNode, suffix: string)
    requires evidence.definition.Evidence? && raw.definition.RawInput? && Closed(evidence.definition.recipe)
    ensures var r := evidence.definition.recipe;
            var edit := AddRawInput(evidence, raw, suffix).value;
            RemoveRawInput(edit.updatedRecipe, edit.recipeInputBindingId) == Ok(r)
            <==> "input.user." + suffix !in BindingIds(r) && "input-node.user." + suffix !in NodeIds(r)
  {
    var r := evidence.definition.recipe;
    var input, node := InputFor(suffix, raw), ReaderFor(suffix);
    var added := AddInput(r, input, node);
    assert added.inputs[|r.inputs|] == input;
    assert input.bindingId in BindingIds(added) && !White(input.bindingId[0]);
    DropUndoesAddInput(r, input, node);
    ClosedMentionsOnlyNodes(r, node.nodeId);
  }

  // ----- Runs -----

  datatype Edit =
    | ApplyParameters(nodeId: string, parameters: seq<Member>)
    | AddOperator(newNodeId: string, operatorId: string, version: string)
    | RemoveOperator(nodeId: string)
    | Connect(newEdgeId: string, source: NodePortReference, target: NodePortReference, slot: Option<string>)
    | RemoveEdge(edgeId: string)
    | DrawRawInput(suffix: string, input: RecipeInputBinding)
    | DeleteRawInput(bindingId: string)

  // One edit, with the identifiers it generates; None when it is refused, or the identifiers are not the ones.
  ghost function Step(r: EvidenceRecipe, operators: Operators, e: Edit): Option<EvidenceRecipe> {
    match e
    case ApplyParameters(nodeId, parameters) =>
      if FindNode(r, nodeId).Ok? then Some(SetParameters(r, nodeId, parameters)) else None
    case AddOperator(newNodeId, operatorId, version) =>
      if Key(operatorId, version) in operators && IsNewId("operator", NodeIds(r), newNodeId)
      then Some(AddNode(r, RecipeNode(newNodeId, operatorId, version, None, []))) else None
    case RemoveOperator(nodeId) =>
      if FindNode(r, nodeId).Ok? then Some(RemoveNode(r, nodeId)) else None
    case Connect(newEdgeId, source, target, slot) =>
      if Refusal(r, operators, source, target).None? && IsNewId("edge", EdgeIds(r), newEdgeId)
      then Some(AddEdge(r, RecipeEdge(newEdgeId, source, target, slot))) else None
    case RemoveEdge(edgeId) =>
      if edgeId in EdgeIds(r) then Some(DropEdge(r, edgeId)) else None
    case DrawRawInput(suffix, input) =>
      if input.bindingId == "input.user." + suffix then Some(AddInput(r, input, ReaderFor(suffix))) else None
    case DeleteRawInput(bindingId) =>
      var removed := RemoveRawInput(r, bindingId);
      if removed.Ok? then Some(removed.value) else None
  }

  // A drawn input's GUID gives identifiers not in use.
  predicate GuidFresh(r: EvidenceRecipe, e: Edit) {
    e.DrawRawInput? ==> e.input.bindingId !in BindingIds(r) && "input-node.user." + e.suffix !in NodeIds(r)
  }

  // Each edit keeps a sound recipe sound, a drawn input exactly when its GUID is fresh.
  lemma StepKeepsSound(r: EvidenceRecipe, operators: Operators, e: Edit)
    requires Sound(r, operators) && Step(r, operators, e).Some?
    ensures Sound(Step(r, operators, e).value, operators) <==> GuidFresh(r, e)
  {
    match e {
      case ApplyParameters(nodeId, parameters) => SetParametersKeeps(r, nodeId, parameters, operators);
      case AddOperator(newNodeId, operatorId, version) =>
        AddNodeKeeps(r, RecipeNode(newNodeId, operatorId, version, None, []));
        AddNodePorts(r, RecipeNode(newNodeId, operatorId, version, None, []), operators);
      case RemoveOperator(nodeId) => RemoveNodeKeeps(r, nodeId, operators);
      case Connect(newEdgeId, source, target, slot) =>
        RefusesExactlyUndeclared(r, operators, source, target);
        AddEdgeKeeps(r, RecipeEdge(newEdgeId, source, target, slot));
        AddEdgePorts(r, RecipeEdge(newEdgeId, source, target, slot), operators);
      case RemoveEdge(edgeId) => DropEdgeKeeps(r, edgeId, operators);
      case DrawRawInput(suffix, input) => AddInputKeeps(r, input, ReaderFor(suffix), operators);
      case DeleteRawInput(bindingId) => DropInputKeeps(r, bindingId, operators);
    }
  }

  ghost function Run(r: EvidenceRecipe, operators: Operators, edits: seq<Edit>): Option<EvidenceRecipe>
    decreases |edits|
  {
    if edits == [] then Some(r)
    else
      var next := Step(r, operators, edits[0]);
      if next.None? then None else Run(next.value, operators, edits[1..])
  }

  ghost predicate GuidsFresh(r: EvidenceRecipe, operators: Operators, edits: seq<Edit>)
    decreases |edits|
  {
    edits == [] ||
    (GuidFresh(r, edits[0]) &&
     (Step(r, operators, edits[0]).Some? ==> GuidsFresh(Step(r, operators, edits[0]).value, operators, edits[1..])))
  }

  /**
    Every sequence of edits of a sound recipe ends in a sound one: node, edge and input IDs unique, no edge,
    output, scoring input or reader naming something missing, and every edge between declared ports.
   */
  lemma {:induction false} RunsStaySound(r: EvidenceRecipe, operators: Operators, edits: seq<Edit>)
    requires Sound(r, operators) && GuidsFresh(r, operators, edits) && Run(r, operators, edits).Some?
    ensures Sound(Run(r, operators, edits).value, operators)
    decreases |edits|
  {
    if edits != [] {
      StepKeepsSound(r, operators, edits[0]);
      RunsStaySound(Step(r, operators, edits[0]).value, operators, edits[1..]);
    }
  }

  function Undo(e: Edit): Edit {
    match e
    case AddOperator(newNodeId, _, _) => RemoveOperator(newNodeId)
    case Connect(newEdgeId, _, _, _) => RemoveEdge(newEdgeId)
    case DrawRawInput(_, input) => DeleteRawInput(input.bindingId)
    case _ => e
  }

  // What was just added can be taken off again without trace.
  lemma AddingIsUndone(r: EvidenceRecipe, operators: Operators, e: Edit)
    requires Sound(r, operators) && Step(r, operators, e).Some? && GuidFresh(r, e)
    requires e.AddOperator? || e.Connect? || e.DrawRawInput?
    ensures Step(Step(r, operators, e).value, operators, Undo(e)) == Some(r)
  {
    match e {
      case AddOperator(newNodeId, operatorId, version) =>
        AddedNodeIsRemoved(r, operators, RecipeNode(newNodeId, operatorId, version, None, []));
      case Connect(newEdgeId, source, target, slot) =>
        ConnectedEdgeIsRemoved(r, operators, RecipeEdge(newEdgeId, source, target, slot));
      case DrawRawInput(suffix, input) => DrawnInputIsDeleted(r, operators, suffix, input);
    }
  }

  lemma AddedNodeIsRemoved(r: EvidenceRecipe, operators: Operators, node: RecipeNode)
    requires Closed(r) && node.nodeId !in NodeIds(r) && node.inputBindingId.None?
    ensures Step(AddNode(r, node), operators, RemoveOperator(node.nodeId)) == Some(r)
  {
    AddNodeKeeps(r, node);
    assert AddNode(r, node).graph.nodes[|r.graph.nodes|] == node;
    FindsTheNode(AddNode(r, node), node.nodeId);
    ClosedMentionsOnlyNodes(r, node.nodeId);
    RemoveUndoesAdd(r, node);
  }

  lemma ConnectedEdgeIsRemoved(r: EvidenceRecipe, operators: Operators, edge: RecipeEdge)
    requires edge.edgeId !in EdgeIds(r)
    ensures Step(AddEdge(r, edge), operators, RemoveEdge(edge.edgeId)) == Some(r)
  {
    assert AddEdge(r, edge).graph.edges[|r.graph.edges|] == edge;
    DropUndoesConnect(r, edge);
  }

  lemma DrawnInputIsDeleted(r: EvidenceRecipe, operators: Operators, suffix: string, input: RecipeInputBinding)
    requires Closed(r) && input.bindingId == "input.user." + suffix && GuidFresh(r, DrawRawInput(suffix, input))
    ensures Step(AddInput(r, input, ReaderFor(suffix)), operators, DeleteRawInput(input.bindingId)) == Some(r)
  {
    assert AddInput(r, input, ReaderFor(suffix)).inputs[|r.inputs|] == input;
    assert !White(input.bindingId[0]);
    ClosedMentionsOnlyNodes(r, ReaderFor(suffix).nodeId);
    DropUndoesAddInput(r, input, ReaderFor(suffix));
  }
}
