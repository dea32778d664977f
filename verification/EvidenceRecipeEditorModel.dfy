/** The recipe editor: each method replaces the recipe, or refuses and leaves it alone. */
module EvidenceRecipeEditorModel {
  import opened Wrappers
  import opened JsonValues
  import opened ModelContracts
  import opened Sequences
  import opened RecipeEdits
  import Decimal

  datatype EditError =
    | NodeMissing
    | NodeAmbiguous
    | OperatorNotInstalled
    | SourcePortNotDeclared
    | TargetPortNotDeclared
    | EdgeMissing

  // ----- Generated identifiers -----

  function Candidate(prefix: string, k: nat): string {
    Decimal.Name(prefix + ".", k)
  }

  lemma FirstCandidates()
    ensures Candidate("operator", 1) == "operator.1" && Candidate("edge", 12) == "edge.12"
  {
    assert Decimal.Numeral(12) == Decimal.Numeral(1) + "2";
  }

  function Candidates(prefix: string, n: nat): set<string> {
    if n == 0 then {} else Candidates(prefix, n - 1) + {Candidate(prefix, n)}
  }

  lemma {:induction false} CandidateAmong(prefix: string, n: nat, k: nat)
    ensures Candidate(prefix, k) in Candidates(prefix, n) <==> 1 <= k <= n
  {
    if n > 0 {
      CandidateAmong(prefix, n - 1, k);
      if Candidate(prefix, k) == Candidate(prefix, n) {
        Decimal.NameInjective(prefix + ".", k, n);
      }
    }
  }

  lemma {:induction false} CandidatesDiffer(prefix: string, n: nat)
    ensures |Candidates(prefix, n)| == n
  {
    if n > 0 {
      CandidatesDiffer(prefix, n - 1);
      CandidateAmong(prefix, n - 1, n);
    }
  }

  // n candidates, all in use, need n used identifiers.
  lemma Pigeonhole(prefix: string, used: set<string>, n: nat)
    requires Candidates(prefix, n) <= used
    ensures n <= |used|
  {
    CandidatesDiffer(prefix, n);
    Subset(Candidates(prefix, n), used);
  }

  lemma Subset(a: set<string>, b: set<string>)
    requires a <= b
    ensures |a| <= |b|
  {
    assert b == a + (b - a);
  }

  function ToSet(existing: seq<string>): set<string> {
    set x | x in existing
  }

  // The first candidate that is not in use.
  ghost predicate IsNewId(prefix: string, used: set<string>, id: string) {
    id !in used && exists k: nat :: 1 <= k && id == Candidate(prefix, k) && Candidates(prefix, k - 1) <= used
  }

  // The search ends within one more try than there are identifiers in use, whatever they are.
  method NewId(prefix: string, existing: seq<string>) returns (id: string, tries: nat)
    ensures IsNewId(prefix, ToSet(existing), id)
    ensures 1 <= tries <= |ToSet(existing)| + 1 && id == Candidate(prefix, tries)
  {
    var used := ToSet(existing);
    var index := 1;
    while Candidate(prefix, index) in used
      invariant index >= 1 && Candidates(prefix, index - 1) <= used
      decreases |used| + 1 - index
    {
      assert Candidates(prefix, index) == Candidates(prefix, index - 1) + {Candidate(prefix, index)};
      Pigeonhole(prefix, used, index);
      index := index + 1;
    }
    Pigeonhole(prefix, used, index - 1);
    return Candidate(prefix, index), index;
  }

  // ----- Looking up -----

  function HasId(nodeId: string): RecipeNode -> bool {
    (n: RecipeNode) => n.nodeId == nodeId
  }

  function FindNode(r: EvidenceRecipe, nodeId: string): Result<RecipeNode, EditError> {
    var found := Filter(HasId(nodeId), r.graph.nodes);
    if found == [] then Err(NodeMissing) else if |found| == 1 then Ok(found[0]) else Err(NodeAmbiguous)
  }

  lemma FindsTheNode(r: EvidenceRecipe, nodeId: string)
    requires Closed(r)
    ensures FindNode(r, nodeId).Ok? <==> nodeId in NodeIds(r)
    ensures FindNode(r, nodeId).Ok? ==>
              FindNode(r, nodeId).value in r.graph.nodes && FindNode(r, nodeId).value.nodeId == nodeId
  {
    var found := Filter(HasId(nodeId), r.graph.nodes);
    UniqueFilter(HasId(nodeId), r.graph.nodes, NodeId);
    SameKeyOnce(found, NodeId, nodeId);
    if found != [] {
      assert found[0] in found;
    }
    forall n <- r.graph.nodes | n.nodeId == nodeId ensures n in found {
    }
  }

  function Definition(operators: Operators, node: RecipeNode): Result<Operator, EditError> {
    var key := Key(node.operatorId, node.operatorVersion);
    if key in operators then Ok(operators[key]) else Err(OperatorNotInstalled)
  }

  function DefinitionOf(r: EvidenceRecipe, operators: Operators, nodeId: string): Result<Operator, EditError> {
    var node := FindNode(r, nodeId);
    if node.Err? then Err(node.error) else Definition(operators, node.value)
  }

  // Why Connect refuses, if it does.
  function Refusal(r: EvidenceRecipe, operators: Operators, source: NodePortReference,
                   target: NodePortReference): Option<EditError> {
    var from, to := DefinitionOf(r, operators, source.nodeId), DefinitionOf(r, operators, target.nodeId);
    if from.Err? then Some(from.error)
    else if to.Err? then Some(to.error)
    else if source.portId !in from.value.outputPorts then Some(SourcePortNotDeclared)
    else if target.portId !in to.value.inputPorts then Some(TargetPortNotDeclared)
    else None
  }

  // On a closed recipe Connect goes through exactly when both ports are declared by the nodes' operators.
  lemma RefusesExactlyUndeclared(r: EvidenceRecipe, operators: Operators, source: NodePortReference,
                                 target: NodePortReference)
    requires Closed(r)
    ensures Refusal(r, operators, source, target).None?
            <==> DeclaresOutput(r, operators, source) && DeclaresInput(r, operators, target)
    ensures Refusal(r, operators, source, target).None? ==> source.nodeId in NodeIds(r) && target.nodeId in NodeIds(r)
  {
    DeclaresExactly(r, operators, source);
    DeclaresExactly(r, operators, target);
  }

  lemma DeclaresExactly(r: EvidenceRecipe, operators: Operators, port: NodePortReference)
    requires Closed(r)
    ensures var found := DefinitionOf(r, operators, port.nodeId);
            && (DeclaresOutput(r, operators, port) <==> found.Ok? && port.portId in found.value.outputPorts)
            && (DeclaresInput(r, operators, port) <==> found.Ok? && port.portId in found.value.inputPorts)
            && (found.Ok? ==> port.nodeId in NodeIds(r))
  {
    FindsTheNode(r, port.nodeId);
    var found := FindNode(r, port.nodeId);
    forall n <- r.graph.nodes | n.nodeId == port.nodeId ensures found == Ok(n) {
      OnlyOne(r.graph.nodes, n, found.value);
    }
  }

  lemma {:induction false} OnlyOne(nodes: seq<RecipeNode>, a: RecipeNode, b: RecipeNode)
    requires UniqueBy(nodes, NodeId) && a in nodes && b in nodes && a.nodeId == b.nodeId
    ensures a == b
  {
    assert a == nodes[0] || a in nodes[1..];
    assert b == nodes[0] || b in nodes[1..];
    if a != nodes[0] && b != nodes[0] {
      OnlyOne(nodes[1..], a, b);
    }
  }

  // ----- The editor -----

  ghost predicate Sound(r: EvidenceRecipe, operators: Operators) {
    Closed(r) && PortsDeclared(r, operators)
  }

  class EvidenceRecipeEditorModel {
    var recipe: EvidenceRecipe
    const operators: Operators

    constructor (recipe: EvidenceRecipe, operators: Operators)
      ensures this.recipe == recipe && this.operators == operators
    {
      this.recipe := recipe;
      this.operators := operators;
    }

    method ApplyParameters(nodeId: string, parameters: seq<Member>) returns (r: Result<(), EditError>)
      modifies this
      ensures r.Ok? <==> FindNode(old(recipe), nodeId).Ok?
      ensures recipe == if r.Ok? then SetParameters(old(recipe), nodeId, parameters) else old(recipe)
      ensures Sound(old(recipe), operators) ==> Sound(recipe, operators)
    {
      var node := FindNode(recipe, nodeId);
      if node.Err? {
        return Err(node.error);
      }
      if Sound(recipe, operators) {
        SetParametersKeeps(recipe, nodeId, parameters, operators);
      }
      recipe := SetParameters(recipe, nodeId, parameters);
      return Ok(());
    }

    method AddOperator(operatorId: string, version: string) returns (r: Result<RecipeNode, EditError>)
      modifies this
      ensures r.Ok? <==> Key(operatorId, version) in operators
      ensures r.Ok? ==> && IsNewId("operator", NodeIds(old(recipe)), r.value.nodeId)
                        && r.value == RecipeNode(r.value.nodeId, operatorId, version, None, [])
                        && recipe == AddNode(old(recipe), r.value)
      ensures r.Err? ==> recipe == old(recipe)
      ensures Sound(old(recipe), operators) ==> Sound(recipe, operators)
    {
      if Key(operatorId, version) !in operators {
        return Err(OperatorNotInstalled);
      }
      var existing := Map(NodeId, recipe.graph.nodes);
      var nodeId, _ := NewId("operator", existing);
      assert NodeIds(recipe) == ToSet(existing) by {
        forall n <- recipe.graph.nodes ensures n.nodeId in existing {
          var i :| 0 <= i < |recipe.graph.nodes| && recipe.graph.nodes[i] == n;
          assert existing[i] == n.nodeId;
        }
      }
      var node := RecipeNode(nodeId, operatorId, version, None, []);
      if Sound(recipe, operators) {
        AddNodeKeeps(recipe, node);
        AddNodePorts(recipe, node, operators);
      }
      recipe := AddNode(recipe, node);
      return Ok(node);
    }

    method RemoveOperator(nodeId: string) returns (r: Result<(), EditError>)
      modifies this
      ensures r.Ok? <==> FindNode(old(recipe), nodeId).Ok?
      ensures recipe == if r.Ok? then RemoveNode(old(recipe), nodeId) else old(recipe)
      ensures Sound(old(recipe), operators) ==> Sound(recipe, operators)
    {
      var node := FindNode(recipe, nodeId);
      if node.Err? {
        return Err(node.error);
      }
      if Sound(recipe, operators) {
        RemoveNodeKeeps(recipe, nodeId, operators);
      }
      recipe := RemoveNode(recipe, nodeId);
      return Ok(());
    }

    method Connect(source: NodePortReference, target: NodePortReference, targetSlotId: Option<string>)
      returns (r: Result<RecipeEdge, EditError>)
      modifies this
      ensures r.Err? <==> Refusal(old(recipe), operators, source, target).Some?
      ensures r.Err? ==> r.error == Refusal(old(recipe), operators, source, target).value && recipe == old(recipe)
      ensures r.Ok? ==> && IsNewId("edge", EdgeIds(old(recipe)), r.value.edgeId)
                        && r.value == RecipeEdge(r.value.edgeId, source, target, targetSlotId)
                        && recipe == AddEdge(old(recipe), r.value)
      ensures Sound(old(recipe), operators) ==> Sound(recipe, operators)
    {
      var refusal := Refusal(recipe, operators, source, target);
      if refusal.Some? {
        return Err(refusal.value);
      }
      var existing := Map(EdgeId, recipe.graph.edges);
      var edgeId, _ := NewId("edge", existing);
      assert EdgeIds(recipe) == ToSet(existing) by {
        forall e <- recipe.graph.edges ensures e.edgeId in existing {
          var i :| 0 <= i < |recipe.graph.edges| && recipe.graph.edges[i] == e;
          assert existing[i] == e.edgeId;
        }
      }
      var edge := RecipeEdge(edgeId, source, target, targetSlotId);
      if Sound(recipe, operators) {
        RefusesExactlyUndeclared(recipe, operators, source, target);
        AddEdgeKeeps(recipe, edge);
        AddEdgePorts(recipe, edge, operators);
      }
      recipe := AddEdge(recipe, edge);
      return Ok(edge);
    }

    method RemoveEdge(edgeId: string) returns (r: Result<(), EditError>)
      modifies this
      ensures r.Ok? <==> edgeId in EdgeIds(old(recipe))
      ensures recipe == if r.Ok? then DropEdge(old(recipe), edgeId) else old(recipe)
      ensures Sound(old(recipe), operators) ==> Sound(recipe, operators)
    {
      if !exists e <- recipe.graph.edges :: e.edgeId == edgeId {
        return Err(EdgeMissing);
      }
      if Sound(recipe, operators) {
        DropEdgeKeeps(recipe, edgeId, operators);
      }
      recipe := DropEdge(recipe, edgeId);
      return Ok(());
    }
  }
}
