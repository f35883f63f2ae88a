/**
 * The JSON structure tree (`src/wasm/src/stats/tree.rs`): nodes that count
 * their children and keep a few example values, and the structure analysis
 * that recommends a profiling mode from the depth and the number of paths.
 */
module StructureTree {
  datatype NodeType = Object | Array | String | Number | Boolean | Null | Mixed

  datatype ProfilingMode = Tabular | Tree

  /** How many example values a node keeps. */
  const MaxExamples: nat := 3

  /** A node of the tree: a JSON path with its children and example values. */
  class TreeNode {
    const path: string
    const depth: nat
    const dataType: NodeType
    var population: real
    var childCount: nat
    var examples: seq<string>
    var children: seq<TreeNode>
    /** Every value offered to `AddExample`, in order. */
    ghost var offered: seq<string>

    /** The child counter matches the children, and the examples are the first values offered. */
    ghost predicate Valid()
      reads this
    {
      && childCount == |children|
      && examples == FirstExamples(offered)
    }

    /** `TreeNode::new`: no population, no children and no examples yet. */
    constructor(path: string, depth: nat, dataType: NodeType)
      ensures Valid()
      ensures this.path == path && this.depth == depth && this.dataType == dataType
      ensures population == 0.0 && childCount == 0 && examples == [] && children == [] && offered == []
    {
      this.path, this.depth, this.dataType := path, depth, dataType;
      population, childCount := 0.0, 0;
      examples, children, offered := [], [], [];
    }

    /** `add_child`: the child is appended and counted. */
    method AddChild(child: TreeNode)
      requires Valid()
      modifies this`childCount, this`children
      ensures Valid()
      ensures children == old(children) + [child] && childCount == old(childCount) + 1
    {
      childCount := childCount + 1;
      children := children + [child];
    }

    /** `add_example`: the value is kept only while fewer than three are kept. */
    method AddExample(value: string)
      requires Valid()
      modifies this`examples, this`offered
      ensures Valid() && offered == old(offered) + [value]
      ensures examples == if |old(examples)| < MaxExamples then old(examples) + [value] else old(examples)
      ensures |examples| <= MaxExamples
    {
      FirstExamplesSnoc(offered, value);
      if |examples| < MaxExamples {
        examples := examples + [value];
      }
      offered := offered + [value];
    }
  }

  /** The examples kept from the values offered: the first three of them. */
  function FirstExamples(offered: seq<string>): (r: seq<string>)
    ensures |r| <= MaxExamples
    ensures |r| == if |offered| < MaxExamples then |offered| else MaxExamples
    ensures r == offered[..|r|]
  {
    if |offered| <= MaxExamples then offered else offered[..MaxExamples]
  }

  /** Offering one more value keeps it exactly when fewer than three were kept. */
  lemma FirstExamplesSnoc(offered: seq<string>, value: string)
    ensures FirstExamples(offered + [value]) ==
      if |FirstExamples(offered)| < MaxExamples then FirstExamples(offered) + [value] else FirstExamples(offered)
  {
    var s := offered + [value];
    if |offered| >= MaxExamples {
      assert s[..MaxExamples] == offered[..MaxExamples];
    }
  }

  /** The recommended mode: `Tree` for deep or wide structures. */
  function ModeFor(maxDepth: nat, totalPaths: nat): (m: ProfilingMode)
    ensures m == Tree <==> maxDepth > 5 || totalPaths > 1000
  {
    if maxDepth > 5 || totalPaths > 1000 then Tree else Tabular
  }

  /** A deeper or wider structure never moves back from `Tree` to `Tabular`. */
  lemma ModeMonotone(d1: nat, p1: nat, d2: nat, p2: nat)
    requires d1 <= d2 && p1 <= p2
    ensures ModeFor(d1, p1) == Tree ==> ModeFor(d2, p2) == Tree
  {
  }

  class StructureAnalysis {
    var maxDepth: nat
    var totalPaths: nat
    var rowsSampled: nat
    const tree: TreeNode
    var recommendedMode: ProfilingMode

    /** `StructureAnalysis::new`: an empty root "$" of type object, and the tabular mode. */
    constructor()
      ensures maxDepth == 0 && totalPaths == 0 && rowsSampled == 0 && recommendedMode == Tabular
      ensures fresh(tree) && tree.Valid()
      ensures tree.path == "$" && tree.depth == 0 && tree.dataType == Object
      ensures tree.childCount == 0 && tree.children == [] && tree.examples == [] && tree.population == 0.0
    {
      maxDepth, totalPaths, rowsSampled := 0, 0, 0;
      tree := new TreeNode("$", 0, Object);
      recommendedMode := Tabular;
    }

    /** `determine_mode`: the mode follows the depth and path thresholds. */
    method DetermineMode()
      modifies this`recommendedMode
      ensures recommendedMode == ModeFor(maxDepth, totalPaths)
    {
      if maxDepth > 5 || totalPaths > 1000 {
        recommendedMode := Tree;
      } else {
        recommendedMode := Tabular;
      }
    }
  }

  /** `StructureConfig::default`: sample up to 1000 rows and collect examples. */
  datatype StructureConfig = StructureConfig(maxSampleRows: nat, collectExamples: bool)

  const DefaultStructureConfig := StructureConfig(1000, true)
}
