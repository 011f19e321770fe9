/** phase_collections.py, phase_group.py, phase_branches.py: trees of phases and their transformers. */
module PhaseTree {
  import opened Prelude

  // ---------------------------------------------------------------- nodes

  datatype Descriptor = Descriptor(name: string, func: int)

  datatype Kind = PlainSequence | SubtestSequence | BranchSequence(condition: int)

  /** A PhaseSequence or an object of one of its subclasses. */
  datatype Sequence = Sequence(kind: Kind, nodes: seq<Node>, name: Option<string>)

  datatype Node =
    | Phase(descriptor: Descriptor)
    | Checkpoint(name: string, check: int)
    | Collection(sequence: Sequence)
    | Group(setup: Option<Sequence>, main: Option<Sequence>, teardown: Option<Sequence>, groupName: Option<string>)

  datatype NodeType =
    AnyNode | DescriptorType | CheckpointType | CollectionType | SequenceType | SubtestType | BranchType | GroupType

  predicate IsInstance(n: Node, t: NodeType) {
    match t
    case AnyNode => true
    case DescriptorType => n.Phase?
    case CheckpointType => n.Checkpoint?
    case CollectionType => n.Collection? || n.Group?
    case SequenceType => n.Collection?
    case SubtestType => n.Collection? && n.sequence.kind.SubtestSequence?
    case BranchType => n.Collection? && n.sequence.kind.BranchSequence?
    case GroupType => n.Group?
  }

  /**
    The class hierarchy: a node is a phase, a checkpoint or a collection; a collection is a sequence
    or a group; subtests and branches are sequences, and told from plain ones by their kind.
   */
  lemma ClassHierarchy(n: Node)
    ensures IsInstance(n, DescriptorType) || IsInstance(n, CheckpointType) <==> !IsInstance(n, CollectionType)
    ensures !(IsInstance(n, DescriptorType) && IsInstance(n, CheckpointType))
    ensures IsInstance(n, SequenceType) || IsInstance(n, GroupType) <==> IsInstance(n, CollectionType)
    ensures n.Group? ==> IsInstance(n, GroupType) && !IsInstance(n, SequenceType)
    ensures IsInstance(n, SubtestType) || IsInstance(n, BranchType) ==> IsInstance(n, SequenceType)
    ensures IsInstance(n, SequenceType) ==>
              match n.sequence.kind
              case PlainSequence => !IsInstance(n, SubtestType) && !IsInstance(n, BranchType)
              case SubtestSequence => IsInstance(n, SubtestType) && !IsInstance(n, BranchType)
              case BranchSequence(_) => IsInstance(n, BranchType) && !IsInstance(n, SubtestType)
  {
  }

  // ---------------------------------------------------------------- apply_to_all_phases

  type Transform = Descriptor -> Descriptor

  function Apply(f: Transform, n: Node): Node
    decreases n
  {
    match n
    case Phase(d) => Phase(f(d))
    case Checkpoint(_, _) => n
    case Collection(s) => Collection(ApplySequence(f, s))
    case Group(setup, main, teardown, name) =>
      Group(ApplySection(f, setup), ApplySection(f, main), ApplySection(f, teardown), name)
  }

  function ApplySequence(f: Transform, s: Sequence): Sequence
    decreases s
  {
    s.(nodes := ApplyNodes(f, s.nodes))
  }

  function ApplySection(f: Transform, s: Option<Sequence>): Option<Sequence>
    decreases s
  {
    if s.None? then None else Some(ApplySequence(f, s.value))
  }

  function ApplyNodes(f: Transform, ns: seq<Node>): seq<Node>
    decreases ns
  {
    if ns == [] then [] else [Apply(f, ns[0])] + ApplyNodes(f, ns[1..])
  }

  // ---------------------------------------------------------------- filter_by_type

  /** The nodes of the type inside a node, in depth-first order; a group's sections do not count as nodes. */
  function Filter(n: Node, t: NodeType): seq<Node>
    decreases n
  {
    match n
    case Phase(_) => []
    case Checkpoint(_, _) => []
    case Collection(s) => FilterSequence(s, t)
    case Group(setup, main, teardown, _) =>
      FilterSection(setup, t) + FilterSection(main, t) + FilterSection(teardown, t)
  }

  function FilterSequence(s: Sequence, t: NodeType): seq<Node>
    decreases s
  {
    FilterNodes(s.nodes, t)
  }

  function FilterSection(s: Option<Sequence>, t: NodeType): seq<Node>
    decreases s
  {
    if s.None? then [] else FilterSequence(s.value, t)
  }

  function FilterNodes(ns: seq<Node>, t: NodeType): seq<Node>
    decreases ns
  {
    if ns == [] then []
    else Here(ns[0], t) + Filter(ns[0], t) + FilterNodes(ns[1..], t)
  }

  function Here(n: Node, t: NodeType): seq<Node> {
    if IsInstance(n, t) then [n] else []
  }

  function AllPhases(n: Node): seq<Node> {
    Filter(n, DescriptorType)
  }

  // ---------------------------------------------------------------- apply and filter

  lemma {:induction false} ApplyNodesConcat(f: Transform, a: seq<Node>, b: seq<Node>)
    ensures ApplyNodes(f, a + b) == ApplyNodes(f, a) + ApplyNodes(f, b)
    decreases |a|
  {
    if a == [] {
      assert a + b == b;
    } else {
      assert (a + b)[0] == a[0] && (a + b)[1..] == a[1..] + b;
      ApplyNodesConcat(f, a[1..], b);
    }
  }

  lemma {:induction false} ApplyNodesPointwise(f: Transform, ns: seq<Node>)
    ensures |ApplyNodes(f, ns)| == |ns| && forall i :: 0 <= i < |ns| ==> ApplyNodes(f, ns)[i] == Apply(f, ns[i])
    decreases |ns|
  {
    if ns != [] {
      ApplyNodesPointwise(f, ns[1..]);
    }
  }

  /**
    Filtering by any type commutes with apply_to_all_phases on arbitrarily nested trees: the nodes
    of a type in the new tree are those of the old one, in the same order, each transformed.
   */
  lemma {:induction false} FilterApply(f: Transform, n: Node, t: NodeType)
    ensures Filter(Apply(f, n), t) == ApplyNodes(f, Filter(n, t))
    decreases n
  {
    match n
    case Collection(s) => FilterApplyNodes(f, s.nodes, t);
    case Group(setup, main, teardown, _) =>
      FilterApplySection(f, setup, t);
      FilterApplySection(f, main, t);
      FilterApplySection(f, teardown, t);
      ApplyNodesConcat(f, FilterSection(setup, t), FilterSection(main, t));
      ApplyNodesConcat(f, FilterSection(setup, t) + FilterSection(main, t), FilterSection(teardown, t));
    case _ =>
  }

  lemma {:induction false} FilterApplySection(f: Transform, s: Option<Sequence>, t: NodeType)
    ensures FilterSection(ApplySection(f, s), t) == ApplyNodes(f, FilterSection(s, t))
    decreases s
  {
    if s.Some? {
      FilterApplyNodes(f, s.value.nodes, t);
    }
  }

  lemma {:induction false} FilterApplyNodes(f: Transform, ns: seq<Node>, t: NodeType)
    ensures FilterNodes(ApplyNodes(f, ns), t) == ApplyNodes(f, FilterNodes(ns, t))
    decreases ns
  {
    if ns != [] {
      FilterApply(f, ns[0], t);
      FilterApplyNodes(f, ns[1..], t);
      assert ApplyNodes(f, ns)[1..] == ApplyNodes(f, ns[1..]);
      ApplyHere(f, ns[0], t);
      ApplyNodesConcat(f, Here(ns[0], t), Filter(ns[0], t));
      ApplyNodesConcat(f, Here(ns[0], t) + Filter(ns[0], t), FilterNodes(ns[1..], t));
    }
  }

  lemma ApplyHere(f: Transform, n: Node, t: NodeType)
    ensures Here(Apply(f, n), t) == ApplyNodes(f, Here(n, t))
  {
    assert [n][1..] == [];
  }

  lemma {:induction false} FilterIsInstance(n: Node, t: NodeType)
    ensures forall m <- Filter(n, t) :: IsInstance(m, t)
    decreases n
  {
    match n
    case Collection(s) => FilterNodesInstance(s.nodes, t);
    case Group(setup, main, teardown, _) =>
      FilterSectionInstance(setup, t);
      FilterSectionInstance(main, t);
      FilterSectionInstance(teardown, t);
    case _ =>
  }

  lemma {:induction false} FilterSectionInstance(s: Option<Sequence>, t: NodeType)
    ensures forall m <- FilterSection(s, t) :: IsInstance(m, t)
    decreases s
  {
    if s.Some? {
      FilterNodesInstance(s.value.nodes, t);
    }
  }

  lemma {:induction false} FilterNodesInstance(ns: seq<Node>, t: NodeType)
    ensures forall m <- FilterNodes(ns, t) :: IsInstance(m, t)
    decreases ns
  {
    if ns != [] {
      FilterIsInstance(ns[0], t);
      FilterNodesInstance(ns[1..], t);
    }
  }

  // ---------------------------------------------------------------- what filter_by_type finds

  /** The nodes directly below a node: those of its sequence, or of its sections. */
  function Children(n: Node): seq<Node> {
    match n
    case Collection(s) => s.nodes
    case Group(setup, main, teardown, _) => NodesOf(setup) + NodesOf(main) + NodesOf(teardown)
    case _ => []
  }

  /** Following the path of child indices down from n leads to m. */
  predicate LeadsTo(path: seq<nat>, n: Node, m: Node)
    decreases |path|
  {
    if path == [] then m == n
    else path[0] < |Children(n)| && LeadsTo(path[1..], Children(n)[path[0]], m)
  }

  ghost predicate Below(ns: seq<Node>, m: Node) {
    exists i, path :: 0 <= i < |ns| && LeadsTo(path, ns[i], m)
  }

  lemma BelowConcat(a: seq<Node>, b: seq<Node>, m: Node)
    ensures Below(a + b, m) <==> Below(a, m) || Below(b, m)
  {
    if i, path :| 0 <= i < |a + b| && LeadsTo(path, (a + b)[i], m) {
      assert i < |a| ==> LeadsTo(path, a[i], m);
      assert i >= |a| ==> LeadsTo(path, b[i - |a|], m);
    }
    if i, path :| 0 <= i < |a| && LeadsTo(path, a[i], m) {
      assert LeadsTo(path, (a + b)[i], m);
    }
    if i, path :| 0 <= i < |b| && LeadsTo(path, b[i], m) {
      assert LeadsTo(path, (a + b)[|a| + i], m);
    }
  }

  lemma BelowOne(n: Node, m: Node)
    ensures Below([n], m) <==> m == n || Below(Children(n), m)
  {
    if path :| LeadsTo(path, n, m) && path != [] {
      assert LeadsTo(path[1..], Children(n)[path[0]], m);
    }
    if i, path :| 0 <= i < |Children(n)| && LeadsTo(path, Children(n)[i], m) {
      assert ([i] + path)[1..] == path;
      assert LeadsTo([i] + path, [n][0], m);
    }
    if m == n {
      assert LeadsTo([], [n][0], m);
    }
  }

  /** Filtering by a type finds exactly the nodes of that type anywhere below. */
  lemma {:induction false} FilterIff(n: Node, t: NodeType, m: Node)
    ensures m in Filter(n, t) <==> IsInstance(m, t) && Below(Children(n), m)
    decreases n
  {
    match n
    case Collection(s) => FilterNodesIff(s.nodes, t, m);
    case Group(setup, main, teardown, _) =>
      FilterSectionIff(setup, t, m);
      FilterSectionIff(main, t, m);
      FilterSectionIff(teardown, t, m);
      BelowConcat(NodesOf(setup), NodesOf(main), m);
      BelowConcat(NodesOf(setup) + NodesOf(main), NodesOf(teardown), m);
    case _ =>
  }

  lemma {:induction false} FilterSectionIff(s: Option<Sequence>, t: NodeType, m: Node)
    ensures m in FilterSection(s, t) <==> IsInstance(m, t) && Below(NodesOf(s), m)
    decreases s
  {
    if s.Some? {
      FilterNodesIff(s.value.nodes, t, m);
    }
  }

  lemma {:induction false} FilterNodesIff(ns: seq<Node>, t: NodeType, m: Node)
    ensures m in FilterNodes(ns, t) <==> IsInstance(m, t) && Below(ns, m)
    decreases ns
  {
    if ns != [] {
      FilterIff(ns[0], t, m);
      FilterNodesIff(ns[1..], t, m);
      BelowOne(ns[0], m);
      BelowConcat([ns[0]], ns[1..], m);
      assert ns == [ns[0]] + ns[1..];
    }
  }

  // ---------------------------------------------------------------- all phases

  /** all_phases after apply_to_all_phases(f) is f of each of all_phases before. */
  lemma AllPhasesMapped(f: Transform, n: Node)
    ensures var before, after := AllPhases(n), AllPhases(Apply(f, n));
            && |after| == |before|
            && forall i :: 0 <= i < |before| ==> before[i].Phase? && after[i] == Phase(f(before[i].descriptor))
  {
    FilterApply(f, n, DescriptorType);
    FilterIsInstance(n, DescriptorType);
    ApplyNodesPointwise(f, AllPhases(n));
    var before := AllPhases(n);
    forall i | 0 <= i < |before| ensures before[i].Phase? {
      assert before[i] in before;
    }
  }

  /** Applying g after f is applying their composition: nothing else of the tree changes. */
  lemma {:induction false} ApplyComposes(f: Transform, g: Transform, h: Transform, n: Node)
    requires forall d :: h(d) == g(f(d))
    ensures Apply(g, Apply(f, n)) == Apply(h, n)
    decreases n
  {
    match n
    case Collection(s) => ApplyNodesComposes(f, g, h, s.nodes);
    case Group(setup, main, teardown, _) =>
      ApplySectionComposes(f, g, h, setup);
      ApplySectionComposes(f, g, h, main);
      ApplySectionComposes(f, g, h, teardown);
    case _ =>
  }

  lemma {:induction false} ApplySectionComposes(f: Transform, g: Transform, h: Transform, s: Option<Sequence>)
    requires forall d :: h(d) == g(f(d))
    ensures ApplySection(g, ApplySection(f, s)) == ApplySection(h, s)
    decreases s
  {
    if s.Some? {
      ApplyNodesComposes(f, g, h, s.value.nodes);
    }
  }

  lemma {:induction false} ApplyNodesComposes(f: Transform, g: Transform, h: Transform, ns: seq<Node>)
    requires forall d :: h(d) == g(f(d))
    ensures ApplyNodes(g, ApplyNodes(f, ns)) == ApplyNodes(h, ns)
    decreases ns
  {
    if ns != [] {
      ApplyComposes(f, g, h, ns[0]);
      ApplyNodesComposes(f, g, h, ns[1..]);
      assert ApplyNodes(f, ns)[1..] == ApplyNodes(f, ns[1..]);
    }
  }

  /** A transform that changes no descriptor changes no tree. */
  lemma {:induction false} ApplyIdentity(f: Transform, n: Node)
    requires forall d :: f(d) == d
    ensures Apply(f, n) == n
    decreases n
  {
    match n
    case Collection(s) => ApplyNodesIdentity(f, s.nodes);
    case Group(setup, main, teardown, _) =>
      ApplySectionIdentity(f, setup);
      ApplySectionIdentity(f, main);
      ApplySectionIdentity(f, teardown);
    case _ =>
  }

  lemma {:induction false} ApplySectionIdentity(f: Transform, s: Option<Sequence>)
    requires forall d :: f(d) == d
    ensures ApplySection(f, s) == s
    decreases s
  {
    if s.Some? {
      ApplyNodesIdentity(f, s.value.nodes);
    }
  }

  lemma {:induction false} ApplyNodesIdentity(f: Transform, ns: seq<Node>)
    requires forall d :: f(d) == d
    ensures ApplyNodes(f, ns) == ns
    decreases ns
  {
    if ns != [] {
      ApplyIdentity(f, ns[0]);
      ApplyNodesIdentity(f, ns[1..]);
    }
  }

  // ---------------------------------------------------------------- the traversal

  /** The nodes of a type in a list. */
  function Select(ns: seq<Node>, t: NodeType): seq<Node> {
    if ns == [] then [] else Here(ns[0], t) + Select(ns[1..], t)
  }

  /** How many nodes there are, this one included. */
  function Size(n: Node): nat
    decreases n
  {
    match n
    case Phase(_) => 1
    case Checkpoint(_, _) => 1
    case Collection(s) => 1 + SizeAll(s.nodes)
    case Group(setup, main, teardown, _) => 1 + SectionSize(setup) + SectionSize(main) + SectionSize(teardown)
  }

  function SectionSize(s: Option<Sequence>): nat
    decreases s
  {
    if s.None? then 0 else SizeAll(s.value.nodes)
  }

  function SizeAll(ns: seq<Node>): nat
    decreases ns
  {
    if ns == [] then 0 else Size(ns[0]) + SizeAll(ns[1..])
  }

  lemma {:induction false} SelectConcat(a: seq<Node>, b: seq<Node>, t: NodeType)
    ensures Select(a + b, t) == Select(a, t) + Select(b, t)
    decreases |a|
  {
    if a == [] {
      assert a + b == b;
    } else {
      assert (a + b)[0] == a[0] && (a + b)[1..] == a[1..] + b;
      SelectConcat(a[1..], b, t);
    }
  }

  /** Filtering goes through every node below once, and picks those of the type, in that order. */
  lemma {:induction false} FilterSelects(n: Node, t: NodeType)
    ensures Filter(n, t) == Select(Filter(n, AnyNode), t)
    ensures 1 + |Filter(n, AnyNode)| == Size(n)
    decreases n
  {
    match n
    case Collection(s) => FilterNodesSelects(s.nodes, t);
    case Group(setup, main, teardown, _) =>
      FilterSectionSelects(setup, t);
      FilterSectionSelects(main, t);
      FilterSectionSelects(teardown, t);
      SelectConcat(FilterSection(setup, AnyNode), FilterSection(main, AnyNode), t);
      SelectConcat(FilterSection(setup, AnyNode) + FilterSection(main, AnyNode), FilterSection(teardown, AnyNode), t);
    case _ =>
  }

  lemma {:induction false} FilterSectionSelects(s: Option<Sequence>, t: NodeType)
    ensures FilterSection(s, t) == Select(FilterSection(s, AnyNode), t)
    ensures |FilterSection(s, AnyNode)| == SectionSize(s)
    decreases s
  {
    if s.Some? {
      FilterNodesSelects(s.value.nodes, t);
    }
  }

  lemma {:induction false} FilterNodesSelects(ns: seq<Node>, t: NodeType)
    ensures FilterNodes(ns, t) == Select(FilterNodes(ns, AnyNode), t)
    ensures |FilterNodes(ns, AnyNode)| == SizeAll(ns)
    decreases ns
  {
    if ns != [] {
      var n, rest := ns[0], ns[1..];
      FilterSelects(n, t);
      FilterNodesSelects(rest, t);
      var below, behind := Filter(n, AnyNode), FilterNodes(rest, AnyNode);
      assert FilterNodes(ns, AnyNode) == [n] + below + behind;
      SelectConcat([n] + below, behind, t);
      SelectConcat([n], below, t);
      assert Select([n], t) == Here(n, t) by { assert [n][1..] == []; }
    }
  }

  /** A node comes right before those below it, and those before the nodes behind it. */
  lemma ParentsFirst(n: Node, rest: seq<Node>)
    ensures var all := FilterNodes([n] + rest, AnyNode);
            && |all| >= Size(n) && all[0] == n
            && all[1..Size(n)] == Filter(n, AnyNode) && all[Size(n)..] == FilterNodes(rest, AnyNode)
  {
    FilterSelects(n, AnyNode);
    assert ([n] + rest)[0] == n && ([n] + rest)[1..] == rest;
  }

  // ---------------------------------------------------------------- combine

  function NodesOf(s: Option<Sequence>): seq<Node> {
    if s.None? then [] else s.value.nodes
  }

  function AllNodesOf(sequences: seq<Option<Sequence>>): seq<Node> {
    if sequences == [] then [] else AllNodesOf(sequences[..|sequences| - 1]) + NodesOf(sequences[|sequences| - 1])
  }

  /** PhaseSequence.combine: a plain sequence of all nodes, or None if there are none. */
  function Combined(nodes: seq<Node>, name: Option<string>): Option<Sequence> {
    if nodes == [] then None else Some(Sequence(PlainSequence, nodes, name))
  }

  method Combine(sequences: seq<Option<Sequence>>, name: Option<string>) returns (r: Option<Sequence>)
    ensures r == Combined(AllNodesOf(sequences), name)
  {
    var nodes: seq<Node> := [];
    for i := 0 to |sequences|
      invariant nodes == AllNodesOf(sequences[..i])
    {
      assert sequences[..i + 1][..i] == sequences[..i];
      if sequences[i].Some? { nodes := nodes + sequences[i].value.nodes; }
    }
    assert sequences[..|sequences|] == sequences;
    return if nodes != [] then Some(Sequence(PlainSequence, nodes, name)) else None;
  }

  function CombineSections(a: Option<Sequence>, b: Option<Sequence>): Option<Sequence> {
    Combined(NodesOf(a) + NodesOf(b), None)
  }

  /** PhaseGroup.combine */
  function CombineGroups(a: Node, b: Node, name: Option<string>): Node
    requires a.Group? && b.Group?
  {
    Group(CombineSections(a.setup, b.setup), CombineSections(a.main, b.main),
          CombineSections(a.teardown, b.teardown), name)
  }

  lemma {:induction false} FilterNodesConcat(a: seq<Node>, b: seq<Node>, t: NodeType)
    ensures FilterNodes(a + b, t) == FilterNodes(a, t) + FilterNodes(b, t)
    decreases |a|
  {
    if a == [] {
      assert a + b == b;
    } else {
      assert (a + b)[0] == a[0] && (a + b)[1..] == a[1..] + b;
      FilterNodesConcat(a[1..], b, t);
    }
  }

  lemma CombinedSection(a: Option<Sequence>, b: Option<Sequence>, t: NodeType)
    ensures NodesOf(CombineSections(a, b)) == NodesOf(a) + NodesOf(b)
    ensures FilterSection(CombineSections(a, b), t) == FilterSection(a, t) + FilterSection(b, t)
  {
    FilterNodesConcat(NodesOf(a), NodesOf(b), t);
  }

  lemma CombineSectionsAssociative(a: Option<Sequence>, b: Option<Sequence>, c: Option<Sequence>)
    ensures CombineSections(CombineSections(a, b), c) == CombineSections(a, CombineSections(b, c))
  {
    var x, y, z := NodesOf(a), NodesOf(b), NodesOf(c);
    NodesOfCombined(a, b);
    NodesOfCombined(b, c);
    assert x + y + z == x + (y + z);
  }

  lemma NodesOfCombined(a: Option<Sequence>, b: Option<Sequence>)
    ensures NodesOf(CombineSections(a, b)) == NodesOf(a) + NodesOf(b)
  {
  }

  lemma ApplyCombinedSections(f: Transform, a: Option<Sequence>, b: Option<Sequence>)
    ensures ApplySection(f, CombineSections(a, b)) == CombineSections(ApplySection(f, a), ApplySection(f, b))
  {
    ApplyNodesConcat(f, NodesOf(a), NodesOf(b));
    ApplyNodesPointwise(f, NodesOf(a) + NodesOf(b));
  }

  /** Combining groups concatenates section by section, also in the order in which nodes are traversed. */
  lemma CombineConcatenates(a: Node, b: Node, t: NodeType, name: Option<string>)
    requires a.Group? && b.Group?
    ensures var g := CombineGroups(a, b, name);
            && g.groupName == name
            && NodesOf(g.setup) == NodesOf(a.setup) + NodesOf(b.setup)
            && NodesOf(g.main) == NodesOf(a.main) + NodesOf(b.main)
            && NodesOf(g.teardown) == NodesOf(a.teardown) + NodesOf(b.teardown)
            && Filter(g, t) == (FilterSection(a.setup, t) + FilterSection(b.setup, t))
                               + (FilterSection(a.main, t) + FilterSection(b.main, t))
                               + (FilterSection(a.teardown, t) + FilterSection(b.teardown, t))
  {
    CombinedSection(a.setup, b.setup, t);
    CombinedSection(a.main, b.main, t);
    CombinedSection(a.teardown, b.teardown, t);
  }

  /** Combining groups is associative. */
  lemma CombineAssociative(a: Node, b: Node, c: Node, n1: Option<string>, n2: Option<string>, name: Option<string>)
    requires a.Group? && b.Group? && c.Group?
    ensures CombineGroups(CombineGroups(a, b, n1), c, name) == CombineGroups(a, CombineGroups(b, c, n2), name)
  {
    CombineSectionsAssociative(a.setup, b.setup, c.setup);
    CombineSectionsAssociative(a.main, b.main, c.main);
    CombineSectionsAssociative(a.teardown, b.teardown, c.teardown);
  }

  /** Combining groups commutes with apply_to_all_phases. */
  lemma ApplyCombined(f: Transform, a: Node, b: Node, name: Option<string>)
    requires a.Group? && b.Group?
    ensures Apply(f, CombineGroups(a, b, name)) == CombineGroups(Apply(f, a), Apply(f, b), name)
  {
    ApplyCombinedSections(f, a.setup, b.setup);
    ApplyCombinedSections(f, a.main, b.main);
    ApplyCombinedSections(f, a.teardown, b.teardown);
  }

  /** A section survives combining with nothing only if it is a plain sequence with nodes and without a name. */
  lemma CombineKeepsSectionIff(a: Sequence)
    ensures CombineSections(Some(a), None) == Some(a) <==> a.nodes != [] && a.kind == PlainSequence && a.name == None
  {
    assert a.nodes + [] == a.nodes;
  }

  // ---------------------------------------------------------------- flatten

  /** What phases are given as: nested iterables, strings, nodes, callables, or something else. */
  datatype Arg =
    | Iterable(args: seq<Arg>)
    | Text(text: string)
    | ANode(node: Node)
    | Callable(descriptor: Descriptor)
    | Other

  /** A non-empty string is an iterable of non-empty strings, without end. */
  datatype FlattenError = ValueError | RecursionError

  function Flatten(a: Arg): Result<seq<Node>, FlattenError>
    decreases a
  {
    match a
    case Iterable(args) => FlattenAll(args)
    case Text(text) => if text == "" then Ok([]) else Err(RecursionError)
    case ANode(n) => Ok([n])
    case Callable(d) => Ok([Phase(d)])
    case Other => Err(ValueError)
  }

  function FlattenAll(args: seq<Arg>): Result<seq<Node>, FlattenError>
    decreases args
  {
    if args == [] then Ok([])
    else
      match Flatten(args[0])
      case Err(e) => Err(e)
      case Ok(first) =>
        match FlattenAll(args[1..])
        case Err(e) => Err(e)
        case Ok(rest) => Ok(first + rest)
  }

  /** Nothing in the argument is a non-empty string or cannot be a phase. */
  predicate Flattenable(a: Arg)
    decreases a
  {
    match a
    case Iterable(args) => forall i :: 0 <= i < |args| ==> Flattenable(args[i])
    case Text(text) => text == ""
    case Other => false
    case _ => true
  }

  lemma {:induction false} FlattenIff(a: Arg)
    ensures Flatten(a).Ok? <==> Flattenable(a)
    decreases a
  {
    match a
    case Iterable(args) => FlattenAllIff(args);
    case _ =>
  }

  lemma {:induction false} FlattenAllIff(args: seq<Arg>)
    ensures FlattenAll(args).Ok? <==> forall i :: 0 <= i < |args| ==> Flattenable(args[i])
    decreases args
  {
    if args != [] {
      FlattenIff(args[0]);
      FlattenAllIff(args[1..]);
      assert forall i :: 1 <= i < |args| ==> args[i] == args[1..][i - 1];
    }
  }

  /** Following the path of indices down the nested iterables of `a` leads to `x`. */
  predicate ArgLeadsTo(path: seq<nat>, a: Arg, x: Arg)
    decreases |path|
  {
    if path == [] then x == a
    else a.Iterable? && path[0] < |a.args| && ArgLeadsTo(path[1..], a.args[path[0]], x)
  }

  /** The argument is a node, or is wrapped into the node of a phase. */
  predicate Makes(x: Arg, n: Node) {
    x == ANode(n) || (x.Callable? && n == Phase(x.descriptor))
  }

  /** How many nodes and callables there are in the nested iterables. */
  function LeafCount(a: Arg): nat
    decreases a
  {
    match a
    case Iterable(args) => LeafCountAll(args)
    case Text(_) => 0
    case _ => 1
  }

  function LeafCountAll(args: seq<Arg>): nat
    decreases args
  {
    if args == [] then 0 else LeafCount(args[0]) + LeafCountAll(args[1..])
  }

  /** Some argument of the list leads to one that makes the node. */
  ghost predicate MadeBelow(args: seq<Arg>, n: Node) {
    exists i, path, x :: 0 <= i < |args| && ArgLeadsTo(path, args[i], x) && Makes(x, n)
  }

  ghost predicate MadeIn(a: Arg, n: Node) {
    exists path, x :: ArgLeadsTo(path, a, x) && Makes(x, n)
  }

  lemma MadeInIterable(args: seq<Arg>, n: Node)
    ensures MadeIn(Iterable(args), n) <==> MadeBelow(args, n)
  {
    var a := Iterable(args);
    if path, x :| ArgLeadsTo(path, a, x) && Makes(x, n) {
      assert ArgLeadsTo(path[1..], args[path[0]], x);
    }
    if i, path, x :| 0 <= i < |args| && ArgLeadsTo(path, args[i], x) && Makes(x, n) {
      assert ([i] + path)[1..] == path;
      assert ArgLeadsTo([i] + path, a, x);
    }
  }

  lemma MadeInLeaf(a: Arg, n: Node)
    requires !a.Iterable?
    ensures MadeIn(a, n) <==> Makes(a, n)
  {
    if Makes(a, n) {
      assert ArgLeadsTo([], a, a);
    }
  }

  /** Flattening answers one node for each node or callable, however deep, and no other. */
  lemma {:induction false} FlattenMakesIff(a: Arg, n: Node)
    requires Flatten(a).Ok?
    ensures |Flatten(a).value| == LeafCount(a)
    ensures n in Flatten(a).value <==> MadeIn(a, n)
    decreases a
  {
    match a
    case Iterable(args) =>
      FlattenAllMakesIff(args, n);
      MadeInIterable(args, n);
    case _ => MadeInLeaf(a, n);
  }

  lemma {:induction false} FlattenAllMakesIff(args: seq<Arg>, n: Node)
    requires FlattenAll(args).Ok?
    ensures |FlattenAll(args).value| == LeafCountAll(args)
    ensures n in FlattenAll(args).value <==> MadeBelow(args, n)
    decreases args
  {
    if args != [] {
      FlattenMakesIff(args[0], n);
      FlattenAllMakesIff(args[1..], n);
      MadeBelowFirst(args, n);
    }
  }

  lemma MadeBelowFirst(args: seq<Arg>, n: Node)
    requires args != []
    ensures MadeBelow(args, n) <==> MadeIn(args[0], n) || MadeBelow(args[1..], n)
  {
    var rest := args[1..];
    if i, path, x :| 0 <= i < |args| && ArgLeadsTo(path, args[i], x) && Makes(x, n) {
      assert i > 0 ==> ArgLeadsTo(path, rest[i - 1], x);
    }
    if i, path, x :| 0 <= i < |rest| && ArgLeadsTo(path, rest[i], x) && Makes(x, n) {
      assert ArgLeadsTo(path, args[i + 1], x);
    }
  }

  /** The error is that of something that is refused: a non-empty string recurses without end. */
  lemma {:induction false} FlattenErrorIsOf(a: Arg) returns (path: seq<nat>, x: Arg)
    requires Flatten(a).Err?
    ensures ArgLeadsTo(path, a, x)
    ensures Flatten(a).error == ValueError ==> x == Other
    ensures Flatten(a).error == RecursionError ==> x.Text? && x.text != ""
    decreases a
  {
    if a.Iterable? {
      var i, p, y := FlattenAllError(a.args);
      path, x := [i] + p, y;
      assert path[1..] == p;
    } else {
      path, x := [], a;
    }
  }

  lemma {:induction false} FlattenAllError(args: seq<Arg>) returns (i: nat, path: seq<nat>, x: Arg)
    requires FlattenAll(args).Err?
    ensures i < |args| && ArgLeadsTo(path, args[i], x)
    ensures FlattenAll(args).error == ValueError ==> x == Other
    ensures FlattenAll(args).error == RecursionError ==> x.Text? && x.text != ""
    decreases args
  {
    if Flatten(args[0]).Err? {
      path, x := FlattenErrorIsOf(args[0]);
      i := 0;
    } else {
      var j, p, y := FlattenAllError(args[1..]);
      i, path, x := j + 1, p, y;
    }
  }

  function AsArgs(ns: seq<Node>): seq<Arg> {
    seq(|ns|, i requires 0 <= i < |ns| => ANode(ns[i]))
  }

  lemma {:induction false} FlattenNodes(ns: seq<Node>)
    ensures FlattenAll(AsArgs(ns)) == Ok(ns)
    decreases |ns|
  {
    if ns != [] {
      FlattenNodes(ns[1..]);
      assert AsArgs(ns)[1..] == AsArgs(ns[1..]);
      assert Flatten(ANode(ns[0])) == Ok([ns[0]]);
      assert [ns[0]] + ns[1..] == ns;
    }
  }

  /** Flattening is idempotent: what comes out of it flattens to itself. */
  lemma FlattenIdempotent(a: Arg)
    ensures Flatten(a).Ok? ==> Flatten(Iterable(AsArgs(Flatten(a).value))) == Flatten(a)
  {
    if Flatten(a).Ok? {
      FlattenNodes(Flatten(a).value);
    }
  }

  function Append(
      a: Result<seq<Node>, FlattenError>, b: Result<seq<Node>, FlattenError>): Result<seq<Node>, FlattenError> {
    if a.Err? then a else if b.Err? then b else Ok(a.value + b.value)
  }

  /** Nesting is irrelevant: an iterable of iterables flattens like their concatenation. */
  lemma {:induction false} FlattenConcat(a: seq<Arg>, b: seq<Arg>)
    ensures FlattenAll(a + b) == Append(FlattenAll(a), FlattenAll(b))
    decreases |a|
  {
    if a == [] {
      assert a + b == b;
      assert FlattenAll(b).Ok? ==> [] + FlattenAll(b).value == FlattenAll(b).value;
    } else {
      assert (a + b)[0] == a[0] && (a + b)[1..] == a[1..] + b;
      FlattenConcat(a[1..], b);
      if Flatten(a[0]).Ok? && FlattenAll(a[1..]).Ok? && FlattenAll(b).Ok? {
        var x, y, z := Flatten(a[0]).value, FlattenAll(a[1..]).value, FlattenAll(b).value;
        assert x + (y + z) == x + y + z;
      }
    }
  }

  // ---------------------------------------------------------------- wrap

  /** The section that a group makes of what it is given: None, a sequence as it is, or flattened phases. */
  function InitializeSection(given: Option<Arg>): Result<Option<Sequence>, FlattenError> {
    if given in {None, Some(Iterable([])), Some(Text(""))} then Ok(None)
    else if given.value.ANode? && given.value.node.Collection? then Ok(Some(given.value.node.sequence))
    else
      match Flatten(Iterable([given.value]))
      case Err(e) => Err(e)
      case Ok(nodes) => Ok(Some(Sequence(PlainSequence, nodes, None)))
  }

  /** PhaseGroup.wrap */
  function Wrap(g: Node, given: Option<Arg>, name: Option<string>): Result<Node, FlattenError>
    requires g.Group?
  {
    match InitializeSection(given)
    case Err(e) => Err(e)
    case Ok(main) => Ok(CombineGroups(g, Group(None, main, None, None), name))
  }

  /** The phases given to wrap: the nodes of a sequence, or what they flatten to. */
  function GivenNodes(given: Option<Arg>): seq<Node> {
    match given
    case None => []
    case Some(ANode(Collection(s))) => s.nodes
    case Some(a) => if Flatten(a).Ok? then Flatten(a).value else []
  }

  lemma FlattenOne(a: Arg)
    ensures Flatten(Iterable([a])) == Flatten(a)
  {
    assert [a][1..] == [] && FlattenAll([]) == Ok([]);
    assert Flatten(a).Ok? ==> Flatten(a).value + [] == Flatten(a).value;
  }

  lemma SectionHasGivenNodes(given: Option<Arg>)
    ensures InitializeSection(given).Ok? <==> given.None? || Flattenable(given.value)
    ensures InitializeSection(given).Ok? ==> NodesOf(InitializeSection(given).value) == GivenNodes(given)
    ensures forall s :: given == Some(ANode(Collection(s))) ==> InitializeSection(given) == Ok(Some(s))
    ensures InitializeSection(given).Ok? && InitializeSection(given).value.Some? ==>
              var s := InitializeSection(given).value.value;
              given == Some(ANode(Collection(s))) || (s.kind == PlainSequence && s.name == None)
  {
    if given.Some? {
      FlattenIff(given.value);
      FlattenOne(given.value);
    }
  }

  /** wrap puts the given phases, if they are any, behind the main ones, between the unchanged setup and teardown. */
  lemma WrapAddsMain(g: Node, given: Option<Arg>, name: Option<string>, t: NodeType)
    requires g.Group?
    ensures Wrap(g, given, name).Ok? <==> given.None? || Flattenable(given.value)
    ensures Wrap(g, given, name).Ok? ==>
              var w := Wrap(g, given, name).value;
              && w.Group? && w.groupName == name && NodesOf(w.main) == NodesOf(g.main) + GivenNodes(given)
              && NodesOf(w.setup) == NodesOf(g.setup) && NodesOf(w.teardown) == NodesOf(g.teardown)
              && Filter(w, t) == FilterSection(g.setup, t) + FilterSection(g.main, t)
                                 + FilterNodes(GivenNodes(given), t) + FilterSection(g.teardown, t)
  {
    SectionHasGivenNodes(given);
    if Wrap(g, given, name).Ok? {
      MoreMain(g, InitializeSection(given).value, name, t);
    }
  }

  lemma MoreMain(g: Node, main: Option<Sequence>, name: Option<string>, t: NodeType)
    requires g.Group?
    ensures var w := CombineGroups(g, Group(None, main, None, None), name);
            && w.groupName == name && NodesOf(w.main) == NodesOf(g.main) + NodesOf(main)
            && NodesOf(w.setup) == NodesOf(g.setup) && NodesOf(w.teardown) == NodesOf(g.teardown)
            && Filter(w, t) == FilterSection(g.setup, t) + FilterSection(g.main, t)
                               + FilterNodes(NodesOf(main), t) + FilterSection(g.teardown, t)
  {
    CombineConcatenates(g, Group(None, main, None, None), t, name);
    AppendNothing(NodesOf(g.setup));
    AppendNothing(NodesOf(g.teardown));
    Regroup(FilterSection(g.setup, t), FilterSection(g.main, t), FilterSection(main, t), FilterSection(g.teardown, t));
  }

  lemma AppendNothing<T>(s: seq<T>)
    ensures s + [] == s
  {
  }

  lemma Regroup<T>(a: seq<T>, b: seq<T>, m: seq<T>, c: seq<T>)
    ensures (a + []) + (b + m) + (c + []) == a + b + m + c
  {
  }

  // ---------------------------------------------------------------- duplicate subtests

  function Subtests(s: Sequence): seq<Node> {
    FilterSequence(s, SubtestType)
  }

  function SubtestName(n: Node): Option<string> {
    if n.Collection? then n.sequence.name else None
  }

  function SubtestNames(ns: seq<Node>): seq<Option<string>> {
    seq(|ns|, i requires 0 <= i < |ns| => SubtestName(ns[i]))
  }

  ghost predicate HasDuplicate<T>(s: seq<T>) {
    exists i, j :: 0 <= i < j < |s| && s[i] == s[j]
  }

  lemma {:induction false} DuplicateIff<T>(s: seq<T>)
    ensures HasDuplicate(s) <==> exists x <- s :: multiset(s)[x] > 1
    decreases |s|
  {
    if s != [] {
      var n := |s| - 1;
      var front, last := s[..n], s[n];
      assert s == front + [last];
      DuplicateIff(front);
      if HasDuplicate(s) {
        var i, j :| 0 <= i < j < |s| && s[i] == s[j];
        if j < n {
          assert front[i] == front[j];
          var x :| x in front && multiset(front)[x] > 1;
          assert x in s && multiset(s)[x] > 1;
        } else {
          assert front[i] == last && last in multiset(front);
          assert multiset(s)[last] > 1;
        }
      }
      if x :| x in s && multiset(s)[x] > 1 {
        if x == last {
          assert x in multiset(front);
          var i :| 0 <= i < n && front[i] == x;
          assert s[i] == s[n];
        } else {
          assert x in front && multiset(front)[x] > 1;
          var i, j :| 0 <= i < j < |front| && front[i] == front[j];
          assert s[i] == s[j];
        }
      }
    }
  }

  /** Each name of the list stands for as many subtests as the list has it. */
  ghost predicate Grouped(groups: map<Option<string>, seq<Node>>, names: seq<Option<string>>) {
    forall x :: multiset(names)[x] == if x in groups then |groups[x]| else 0
  }

  function AddToGroup(
      groups: map<Option<string>, seq<Node>>, name: Option<string>, n: Node): map<Option<string>, seq<Node>> {
    groups[name := (if name in groups then groups[name] else []) + [n]]
  }

  lemma GroupedNext(groups: map<Option<string>, seq<Node>>, names: seq<Option<string>>, name: Option<string>, n: Node)
    requires Grouped(groups, names)
    ensures Grouped(AddToGroup(groups, name, n), names + [name])
  {
  }

  function Duplicates(names: seq<Option<string>>): set<Option<string>> {
    set x | x in names && multiset(names)[x] > 1
  }

  lemma DuplicatesGrouped(groups: map<Option<string>, seq<Node>>, names: seq<Option<string>>)
    requires Grouped(groups, names)
    ensures (set x | x in groups && |groups[x]| > 1) == Duplicates(names)
  {
    forall x | x in groups && |groups[x]| > 1 ensures x in names {
      assert multiset(names)[x] > 0;
    }
  }

  /** check_for_duplicate_subtest_names: the names that several subtests share; it raises if there are any. */
  method CheckForDuplicateSubtestNames(s: Sequence) returns (duplicates: set<Option<string>>)
    ensures duplicates == Duplicates(SubtestNames(Subtests(s)))
  {
    var subtests := Subtests(s);
    ghost var names := SubtestNames(subtests);
    var namesToSubtests: map<Option<string>, seq<Node>> := map[];
    for i := 0 to |subtests|
      invariant Grouped(namesToSubtests, names[..i])
    {
      var name := SubtestName(subtests[i]);
      GroupedNext(namesToSubtests, names[..i], name, subtests[i]);
      assert names[..i + 1] == names[..i] + [name];
      namesToSubtests := AddToGroup(namesToSubtests, name, subtests[i]);
    }
    assert names[..|names|] == names;
    DuplicatesGrouped(namesToSubtests, names);
    return set name | name in namesToSubtests && |namesToSubtests[name]| > 1;
  }

  /** The check raises if and only if two subtests of the traversal share a name. */
  lemma CheckRaisesIff(s: Sequence)
    ensures Duplicates(SubtestNames(Subtests(s))) != {} <==> HasDuplicate(SubtestNames(Subtests(s)))
  {
    var names := SubtestNames(Subtests(s));
    DuplicateIff(names);
    if x :| x in names && multiset(names)[x] > 1 { assert x in Duplicates(names); }
  }

  lemma ApplyKeepsName(f: Transform, n: Node)
    ensures SubtestName(Apply(f, n)) == SubtestName(n)
  {
  }

  /** Transforming the phases does not change the verdict. */
  lemma ApplyKeepsSubtestNames(f: Transform, s: Sequence)
    ensures SubtestNames(Subtests(ApplySequence(f, s))) == SubtestNames(Subtests(s))
  {
    FilterApplyNodes(f, s.nodes, SubtestType);
    var before, after := Subtests(s), Subtests(ApplySequence(f, s));
    ApplyNodesPointwise(f, before);
    forall i | 0 <= i < |before| ensures SubtestName(after[i]) == SubtestName(before[i]) {
      ApplyKeepsName(f, before[i]);
    }
  }

  // ---------------------------------------------------------------- subtests as sections

  function SectionAsNodes(s: Option<Sequence>): seq<Node> {
    if s.Some? && s.value.kind.SubtestSequence? then [Collection(s.value)] else []
  }

  /** All subtests of a tree, those that are themselves a section of a group included. */
  function DeepSubtests(ns: seq<Node>): seq<Node>
    decreases ns
  {
    if ns == [] then []
    else Here(ns[0], SubtestType) + DeepSubtestsIn(ns[0]) + DeepSubtests(ns[1..])
  }

  function DeepSubtestsIn(n: Node): seq<Node>
    decreases n
  {
    match n
    case Collection(s) => DeepSubtests(s.nodes)
    case Group(setup, main, teardown, _) => DeepSection(setup) + DeepSection(main) + DeepSection(teardown)
    case _ => []
  }

  function DeepSection(s: Option<Sequence>): seq<Node>
    decreases s
  {
    if s.None? then [] else SectionAsNodes(s) + DeepSubtests(s.value.nodes)
  }

  /** How many group sections are subtests. */
  function HiddenSubtests(ns: seq<Node>): nat
    decreases ns
  {
    if ns == [] then 0 else HiddenIn(ns[0]) + HiddenSubtests(ns[1..])
  }

  function HiddenIn(n: Node): nat
    decreases n
  {
    match n
    case Collection(s) => HiddenSubtests(s.nodes)
    case Group(setup, main, teardown, _) => HiddenSection(setup) + HiddenSection(main) + HiddenSection(teardown)
    case _ => 0
  }

  function HiddenSection(s: Option<Sequence>): nat
    decreases s
  {
    if s.None? then 0 else |SectionAsNodes(s)| + HiddenSubtests(s.value.nodes)
  }

  /** The check sees every subtest if and only if no group section is itself a subtest. */
  lemma {:induction false} SeesAllSubtestsIff(ns: seq<Node>)
    ensures |DeepSubtests(ns)| == |FilterNodes(ns, SubtestType)| + HiddenSubtests(ns)
    ensures DeepSubtests(ns) == FilterNodes(ns, SubtestType) <==> HiddenSubtests(ns) == 0
    decreases ns
  {
    if ns != [] {
      SeesAllInIff(ns[0]);
      SeesAllSubtestsIff(ns[1..]);
    }
  }

  lemma {:induction false} SeesAllInIff(n: Node)
    ensures |DeepSubtestsIn(n)| == |Filter(n, SubtestType)| + HiddenIn(n)
    ensures DeepSubtestsIn(n) == Filter(n, SubtestType) <==> HiddenIn(n) == 0
    decreases n
  {
    match n
    case Collection(s) => SeesAllSubtestsIff(s.nodes);
    case Group(setup, main, teardown, _) =>
      SeesAllSectionIff(setup);
      SeesAllSectionIff(main);
      SeesAllSectionIff(teardown);
    case _ =>
  }

  lemma {:induction false} SeesAllSectionIff(s: Option<Sequence>)
    ensures |DeepSection(s)| == |FilterSection(s, SubtestType)| + HiddenSection(s)
    ensures DeepSection(s) == FilterSection(s, SubtestType) <==> HiddenSection(s) == 0
    decreases s
  {
    if s.Some? {
      SeesAllSubtestsIff(s.value.nodes);
    }
  }

  /** If no group section is a subtest, the check raises iff two subtests anywhere in the tree share a name. */
  lemma CheckIsCompleteWithoutHidden(s: Sequence)
    requires HiddenSubtests(s.nodes) == 0
    ensures Duplicates(SubtestNames(Subtests(s))) != {} <==> HasDuplicate(SubtestNames(DeepSubtests(s.nodes)))
  {
    SeesAllSubtestsIff(s.nodes);
    CheckRaisesIff(s);
  }

  /** Otherwise it may miss them: two groups whose main section is a subtest of the same name. */
  lemma HiddenDuplicateExample(name: string)
    ensures var g := Group(None, Some(Sequence(SubtestSequence, [], Some(name))), None, None);
            var s := Sequence(PlainSequence, [g, g], None);
            && Duplicates(SubtestNames(Subtests(s))) == {}
            && HasDuplicate(SubtestNames(DeepSubtests(s.nodes)))
  {
    var subtest := Sequence(SubtestSequence, [], Some(name));
    var g := Group(None, Some(subtest), None, None);
    var s := Sequence(PlainSequence, [g, g], None);
    assert [g, g][1..] == [g] && [g][1..] == [];
    assert FilterSection(Some(subtest), SubtestType) == FilterNodes([], SubtestType) == [];
    assert Filter(g, SubtestType) == [];
    assert FilterNodes([g], SubtestType) == [] by {
      assert Here(g, SubtestType) == [] && FilterNodes([g][1..], SubtestType) == [];
      assert FilterNodes([g], SubtestType) ==
             Here([g][0], SubtestType) + Filter([g][0], SubtestType) + FilterNodes([g][1..], SubtestType);
    }
    var rest := FilterNodes([g], SubtestType);
    assert FilterNodes([g, g], SubtestType) == Here(g, SubtestType) + Filter(g, SubtestType) + rest;
    assert Subtests(s) == [];
    assert DeepSection(Some(subtest)) == [Collection(subtest)] && DeepSubtestsIn(g) == [Collection(subtest)];
    assert DeepSubtests([g]) == [Collection(subtest)];
    var deep := DeepSubtests([g, g]);
    assert deep == [Collection(subtest), Collection(subtest)];
    assert SubtestNames(deep)[0] == SubtestNames(deep)[1];
  }
}
