/** Flattening a tree of parsers into the group array, and the pass that sizes it. */
module ArgpConvert {
  import opened Common
  import opened ArgpTree

  function NeedsGroup(a: Argp): bool {
    a.options.Some? || a.parser
  }

  function Count(cs: Children): nat {
    match cs
    case End => 0
    case Child(_, next) => 1 + Count(next)
  }

  function NthChild(cs: Children, k: nat): Option<Argp> {
    match cs
    case End => None
    case Child(a, next) => if k == 0 then Some(a) else NthChild(next, k - 1)
  }

  // ----- the sizes -----

  function NumGroups(a: Argp): nat {
    (if NeedsGroup(a) then 1 else 0) + NumGroupsAll(a.children)
  }

  function NumGroupsAll(cs: Children): nat {
    match cs
    case End => 0
    case Child(a, next) => NumGroups(a) + NumGroupsAll(next)
  }

  function NumInputs(a: Argp): nat {
    NumInputsAll(a.children)
  }

  function NumInputsAll(cs: Children): nat {
    match cs
    case End => 0
    case Child(a, next) => NumInputs(a) + 1 + NumInputsAll(next)
  }

  /** calc_sizes, which adds to the counters it is given. */
  method CalcSizes(a: Argp, groups: nat, inputs: nat) returns (groups': nat, inputs': nat)
    ensures groups' == groups + NumGroups(a) && inputs' == inputs + NumInputs(a)
  {
    groups', inputs' := groups, inputs;
    if NeedsGroup(a) {
      groups' := groups' + 1;
    }
    var child := a.children;
    while child.Child?
      invariant child == a.children || child < a.children
      invariant groups' + NumGroupsAll(child) == groups + NumGroups(a)
      invariant inputs' + NumInputsAll(child) == inputs + NumInputs(a)
      decreases child
    {
      groups', inputs' := CalcSizes(child.argp, groups', inputs');
      inputs', child := inputs' + 1, child.next;
    }
  }

  // ----- the groups -----

  /** A parser with a group: the group of its parent, if that has one, and its number among the children. */
  datatype Node = Node(argp: Argp, parent: Option<nat>, index: nat)

  /** The parsers that need a group, in pre-order; the first of them has group number `at`. */
  ghost function Nodes(a: Argp, parent: Option<nat>, index: nat, at: nat): seq<Node> {
    if NeedsGroup(a) then [Node(a, parent, index)] + NodesAll(a.children, Some(at), 0, at + 1)
    else NodesAll(a.children, None, 0, at)
  }

  ghost function NodesAll(cs: Children, parent: Option<nat>, index: nat, at: nat): seq<Node> {
    match cs
    case End => []
    case Child(a, next) =>
      var first := Nodes(a, parent, index, at);
      first + NodesAll(next, parent, index + 1, at + |first|)
  }

  /** struct group: `inputs` is where its child inputs start. */
  datatype GroupRec = GroupRec(node: Node, inputs: Option<nat>)

  function Record(n: Node, base: nat): GroupRec {
    GroupRec(n, if n.argp.children.End? then None else Some(base))
  }

  /** The groups of `nodes`, whose child inputs start at `base`. */
  ghost function Records(nodes: seq<Node>, base: nat): (r: seq<GroupRec>)
    ensures |r| == |nodes|
  {
    if nodes == [] then []
    else
      [Record(nodes[0], base)] + Records(nodes[1..], base + Count(nodes[0].argp.children))
  }

  /** The child inputs of a list of groups. */
  ghost function Inputs(nodes: seq<Node>): nat {
    if nodes == [] then 0 else Count(nodes[0].argp.children) + Inputs(nodes[1..])
  }

  lemma {:induction false} InputsConcat(a: seq<Node>, b: seq<Node>)
    ensures Inputs(a + b) == Inputs(a) + Inputs(b)
    decreases |a|
  {
    if a == [] {
      assert a + b == b;
    } else {
      assert (a + b)[1..] == a[1..] + b;
      InputsConcat(a[1..], b);
    }
  }

  lemma {:induction false} RecordsConcat(a: seq<Node>, b: seq<Node>, base: nat)
    ensures Records(a + b, base) == Records(a, base) + Records(b, base + Inputs(a))
    decreases |a|
  {
    if a == [] {
      assert a + b == b;
    } else {
      var after := base + Count(a[0].argp.children);
      assert (a + b)[1..] == a[1..] + b && (a + b)[0] == a[0];
      assert Records(a + b, base) == [Record(a[0], base)] + Records(a[1..] + b, after);
      assert Records(a, base) == [Record(a[0], base)] + Records(a[1..], after);
      assert after + Inputs(a[1..]) == base + Inputs(a);
      hide Records, Inputs;
      RecordsConcat(a[1..], b, after);
    }
  }

  // ----- what the groups are -----

  /** The sizing pass counts exactly the groups that are filled. */
  lemma {:induction false} SizesAgree(a: Argp, parent: Option<nat>, index: nat, at: nat)
    ensures |Nodes(a, parent, index, at)| == NumGroups(a)
  {
    if NeedsGroup(a) {
      SizesAgreeAll(a.children, Some(at), 0, at + 1);
    } else {
      SizesAgreeAll(a.children, None, 0, at);
    }
  }

  lemma {:induction false} SizesAgreeAll(cs: Children, parent: Option<nat>, index: nat, at: nat)
    ensures |NodesAll(cs, parent, index, at)| == NumGroupsAll(cs)
  {
    match cs
    case End =>
    case Child(a, next) =>
      SizesAgree(a, parent, index, at);
      SizesAgreeAll(next, parent, index + 1, at + NumGroups(a));
  }

  /** No parser without a group has children. */
  ghost predicate Grouped(a: Argp) {
    (NeedsGroup(a) || a.children.End?) && GroupedAll(a.children)
  }

  ghost predicate GroupedAll(cs: Children) {
    match cs
    case End => true
    case Child(a, next) => Grouped(a) && GroupedAll(next)
  }

  /** The child inputs fit, and use up what was reserved exactly when no parser without a group has children. */
  lemma {:induction false} InputsFit(a: Argp, parent: Option<nat>, index: nat, at: nat)
    ensures Inputs(Nodes(a, parent, index, at)) <= NumInputs(a)
    ensures Inputs(Nodes(a, parent, index, at)) == NumInputs(a) <==> Grouped(a)
  {
    if NeedsGroup(a) {
      var below := NodesAll(a.children, Some(at), 0, at + 1);
      InputsFitAll(a.children, Some(at), 0, at + 1);
      InputsConcat([Node(a, parent, index)], below);
    } else {
      InputsFitAll(a.children, None, 0, at);
    }
  }

  lemma {:induction false} InputsFitAll(cs: Children, parent: Option<nat>, index: nat, at: nat)
    ensures Inputs(NodesAll(cs, parent, index, at)) + Count(cs) <= NumInputsAll(cs)
    ensures Inputs(NodesAll(cs, parent, index, at)) + Count(cs) == NumInputsAll(cs) <==> GroupedAll(cs)
  {
    match cs
    case End =>
    case Child(a, next) =>
      var first := Nodes(a, parent, index, at);
      InputsFit(a, parent, index, at);
      InputsFitAll(next, parent, index + 1, at + |first|);
      InputsConcat(first, NodesAll(next, parent, index + 1, at + |first|));
  }

  /** Every group starts its child inputs after those of the groups before it. */
  lemma {:induction false} RecordAt(nodes: seq<Node>, base: nat, i: nat)
    requires i < |nodes|
    ensures var r := Records(nodes, base)[i];
            r == Record(nodes[i], base + Inputs(nodes[..i]))
    ensures Inputs(nodes[..i]) + Count(nodes[i].argp.children) + Inputs(nodes[i + 1..]) == Inputs(nodes)
    decreases i
  {
    if i > 0 {
      RecordAt(nodes[1..], base + Count(nodes[0].argp.children), i - 1);
      assert nodes[..i][1..] == nodes[1..][..i - 1] && nodes[1..][i..] == nodes[i + 1..];
    }
  }

  /** The child inputs of different groups do not overlap, and none lies outside the reserved slots. */
  lemma InputsDisjoint(nodes: seq<Node>, base: nat, i: nat, j: nat)
    requires i < j < |nodes|
    ensures var r, s := Records(nodes, base)[i], Records(nodes, base)[j];
            r.inputs.Some? && s.inputs.Some? ==>
              && base <= r.inputs.value && r.inputs.value + Count(nodes[i].argp.children) <= s.inputs.value
              && s.inputs.value + Count(nodes[j].argp.children) <= base + Inputs(nodes)
  {
    RecordAt(nodes, base, i);
    RecordAt(nodes, base, j);
    assert nodes[..j][..i] == nodes[..i] && nodes[..j][i] == nodes[i];
    RecordAt(nodes[..j], base, i);
  }

  /** A node's parent comes before it and has it as the child with the node's index. */
  ghost predicate Linked(nodes: seq<Node>, at: nat, i: nat)
    requires i < |nodes| && nodes[i].parent.Some?
  {
    var p := nodes[i].parent.value;
    at <= p < at + i && NthChild(nodes[p - at].argp.children, nodes[i].index) == Some(nodes[i].argp)
  }

  /** The node hangs directly under the parser whose children are being converted. */
  ghost predicate Direct(cs: Children, parent: Option<nat>, index: nat, n: Node) {
    n.parent == parent && n.index >= index && NthChild(cs, n.index - index) == Some(n.argp)
  }

  ghost predicate AllLinked(nodes: seq<Node>, at: nat, cs: Children, parent: Option<nat>, index: nat) {
    forall i :: 0 <= i < |nodes| ==> LinkOk(nodes, at, cs, parent, index, i)
  }

  ghost predicate LinkOk(nodes: seq<Node>, at: nat, cs: Children, parent: Option<nat>, index: nat, i: nat)
    requires i < |nodes|
  {
    Direct(cs, parent, index, nodes[i]) || nodes[i].parent.None? || Linked(nodes, at, i)
  }

  lemma {:induction false} ParentsLinked(a: Argp, parent: Option<nat>, index: nat, at: nat, next: Children)
    ensures AllLinked(Nodes(a, parent, index, at), at, Child(a, next), parent, index)
  {
    var nodes := Nodes(a, parent, index, at);
    if NeedsGroup(a) {
      var below := NodesAll(a.children, Some(at), 0, at + 1);
      ParentsLinkedAll(a.children, Some(at), 0, at + 1);
      forall i | 0 <= i < |nodes|
        ensures LinkOk(nodes, at, Child(a, next), parent, index, i)
      {
        if i > 0 {
          assert nodes[i] == below[i - 1] && LinkOk(below, at + 1, a.children, Some(at), 0, i - 1);
        }
      }
    } else {
      ParentsLinkedAll(a.children, None, 0, at);
      forall i | 0 <= i < |nodes|
        ensures LinkOk(nodes, at, Child(a, next), parent, index, i)
      {
        assert LinkOk(nodes, at, a.children, None, 0, i);
      }
    }
  }

  lemma {:induction false} ParentsLinkedAll(cs: Children, parent: Option<nat>, index: nat, at: nat)
    ensures AllLinked(NodesAll(cs, parent, index, at), at, cs, parent, index)
  {
    match cs
    case End =>
    case Child(a, next) =>
      var nodes, first := NodesAll(cs, parent, index, at), Nodes(a, parent, index, at);
      var rest := NodesAll(next, parent, index + 1, at + |first|);
      ParentsLinked(a, parent, index, at, next);
      ParentsLinkedAll(next, parent, index + 1, at + |first|);
      forall i | 0 <= i < |nodes|
        ensures LinkOk(nodes, at, cs, parent, index, i)
      {
        if i < |first| {
          assert LinkOk(first, at, cs, parent, index, i);
        } else {
          assert LinkOk(rest, at + |first|, next, parent, index + 1, i - |first|);
        }
      }
  }

  // ----- which parsers get a group, and who is whose child -----

  /** The parsers of a tree, each before its children. */
  ghost function Preorder(a: Argp): seq<Argp> {
    [a] + PreorderAll(a.children)
  }

  ghost function PreorderAll(cs: Children): seq<Argp> {
    match cs
    case End => []
    case Child(a, next) => Preorder(a) + PreorderAll(next)
  }

  /** Those of them that have options or a parser function. */
  ghost function Kept(argps: seq<Argp>): seq<Argp> {
    if argps == [] then []
    else (if argps[0].options.Some? || argps[0].parser then [argps[0]] else []) + Kept(argps[1..])
  }

  ghost function ArgpsOf(nodes: seq<Node>): seq<Argp> {
    seq(|nodes|, i requires 0 <= i < |nodes| => nodes[i].argp)
  }

  ghost function NodesOf(groups: seq<GroupRec>): seq<Node> {
    seq(|groups|, i requires 0 <= i < |groups| => groups[i].node)
  }

  lemma {:induction false} KeptConcat(a: seq<Argp>, b: seq<Argp>)
    ensures Kept(a + b) == Kept(a) + Kept(b)
    decreases |a|
  {
    if a == [] {
      assert a + b == b;
    } else {
      assert (a + b)[1..] == a[1..] + b && (a + b)[0] == a[0];
      KeptConcat(a[1..], b);
      var own := if a[0].options.Some? || a[0].parser then [a[0]] else [];
      assert Kept(a + b) == own + Kept(a[1..] + b) && Kept(a) == own + Kept(a[1..]);
      hide Kept;
      assert own + (Kept(a[1..]) + Kept(b)) == own + Kept(a[1..]) + Kept(b);
    }
  }

  /** The groups are, in pre-order, exactly the parsers that have options or a parser function. */
  lemma {:induction false} GroupsAre(a: Argp, parent: Option<nat>, index: nat, at: nat)
    ensures ArgpsOf(Nodes(a, parent, index, at)) == Kept(Preorder(a))
  {
    KeptConcat([a], PreorderAll(a.children));
    assert [a][1..] == [];
    if NeedsGroup(a) {
      GroupsAreAll(a.children, Some(at), 0, at + 1);
    } else {
      GroupsAreAll(a.children, None, 0, at);
    }
  }

  lemma {:induction false} GroupsAreAll(cs: Children, parent: Option<nat>, index: nat, at: nat)
    ensures ArgpsOf(NodesAll(cs, parent, index, at)) == Kept(PreorderAll(cs))
  {
    match cs
    case End =>
    case Child(a, next) =>
      var first := Nodes(a, parent, index, at);
      GroupsAre(a, parent, index, at);
      GroupsAreAll(next, parent, index + 1, at + |first|);
      KeptConcat(Preorder(a), PreorderAll(next));
  }

  /** Every child that has a group is linked to its parent's, under its number. */
  ghost predicate ChildrenLinked(nodes: seq<Node>, at: nat) {
    forall i :: 0 <= i < |nodes| ==> Present(nodes, nodes[i].argp.children, Some(at + i), 0)
  }

  /** Those of the children `cs` that have a group are there, numbered from `index` on. */
  ghost predicate Present(nodes: seq<Node>, cs: Children, parent: Option<nat>, index: nat) {
    forall k: nat :: ChildPresent(nodes, cs, parent, index, k)
  }

  ghost predicate ChildPresent(nodes: seq<Node>, cs: Children, parent: Option<nat>, index: nat, k: nat) {
    match NthChild(cs, k)
    case None => true
    case Some(c) => c.options.Some? || c.parser ==> Node(c, parent, index + k) in nodes
  }

  lemma PresentInMore(nodes: seq<Node>, more: seq<Node>, cs: Children, parent: Option<nat>, index: nat)
    requires Present(nodes, cs, parent, index) && forall n :: n in nodes ==> n in more
    ensures Present(more, cs, parent, index)
  {
    forall k: nat
      ensures ChildPresent(more, cs, parent, index, k)
    {
      assert ChildPresent(nodes, cs, parent, index, k);
    }
  }

  lemma LinkedConcat(a: seq<Node>, b: seq<Node>, at: nat)
    requires ChildrenLinked(a, at) && ChildrenLinked(b, at + |a|)
    ensures ChildrenLinked(a + b, at)
  {
    hide Present;
    forall i | 0 <= i < |a + b|
      ensures Present(a + b, (a + b)[i].argp.children, Some(at + i), 0)
    {
      if i < |a| {
        PresentInMore(a, a + b, a[i].argp.children, Some(at + i), 0);
      } else {
        PresentInMore(b, a + b, b[i - |a|].argp.children, Some(at + |a| + (i - |a|)), 0);
      }
    }
  }

  lemma {:induction false} ChildrenAreLinked(a: Argp, parent: Option<nat>, index: nat, at: nat)
    ensures ChildrenLinked(Nodes(a, parent, index, at), at)
    ensures a.options.Some? || a.parser ==> Node(a, parent, index) in Nodes(a, parent, index, at)
  {
    hide Present;
    if NeedsGroup(a) {
      var own, below := Node(a, parent, index), NodesAll(a.children, Some(at), 0, at + 1);
      var nodes := [own] + below;
      ChildrenAreLinkedAll(a.children, Some(at), 0, at + 1);
      PresentInMore(below, nodes, a.children, Some(at), 0);
      forall i | 0 <= i < |nodes|
        ensures Present(nodes, nodes[i].argp.children, Some(at + i), 0)
      {
        if i > 0 {
          PresentInMore(below, nodes, below[i - 1].argp.children, Some(at + 1 + (i - 1)), 0);
        }
      }
    } else {
      ChildrenAreLinkedAll(a.children, None, 0, at);
    }
  }

  lemma {:induction false} ChildrenAreLinkedAll(cs: Children, parent: Option<nat>, index: nat, at: nat)
    ensures ChildrenLinked(NodesAll(cs, parent, index, at), at)
    ensures Present(NodesAll(cs, parent, index, at), cs, parent, index)
  {
    match cs
    case End =>
    case Child(a, next) =>
      var nodes, first := NodesAll(cs, parent, index, at), Nodes(a, parent, index, at);
      var rest := NodesAll(next, parent, index + 1, at + |first|);
      ChildrenAreLinked(a, parent, index, at);
      ChildrenAreLinkedAll(next, parent, index + 1, at + |first|);
      assert nodes == first + rest;
      LinkedConcat(first, rest, at);
      forall k: nat
        ensures ChildPresent(nodes, cs, parent, index, k)
      {
        if k > 0 {
          assert ChildPresent(rest, next, parent, index + 1, k - 1);
        }
      }
  }

  // ----- convert_options and parser_convert -----

  /** convert_options: fills the groups from `group` on and takes child inputs from `inputsEnd` on. */
  method ConvertOptions(a: Argp, parent: Option<nat>, index: nat, groups: array<GroupRec>, group: nat, inputsEnd: nat)
    returns (group': nat, inputsEnd': nat)
    requires group + NumGroups(a) <= groups.Length
    modifies groups
    ensures var nodes := Nodes(a, parent, index, group);
            && group' == group + |nodes| && inputsEnd' == inputsEnd + Inputs(nodes)
            && Replaced(old(groups[..]), group, group', Records(nodes, inputsEnd), groups[..])
    decreases a
  {
    if !NeedsGroup(a) {
      group', inputsEnd' := ConvertChildren(a.children, None, groups, group, inputsEnd);
      return;
    }
    ghost var was, own, below := groups[..], [Node(a, parent, index)], NodesAll(a.children, Some(group), 0, group + 1);
    groups[group] := Record(Node(a, parent, index), inputsEnd);
    ghost var now, end := groups[..], inputsEnd + Count(a.children);
    assert Replaced(was, group, group + 1, [Record(own[0], inputsEnd)], now);
    group', inputsEnd' := ConvertChildren(a.children, Some(group), groups, group + 1, inputsEnd + Count(a.children));
    assert Records(own, inputsEnd) == [Record(own[0], inputsEnd)] && Inputs(own) == Count(a.children);
    hide Records, Inputs, Replaced, NodesAll, Record;
    ReplacedMore(was, group, group + 1, group', Records(own, inputsEnd), now, Records(below, end), groups[..]);
    RecordsConcat(own, below, inputsEnd);
    InputsConcat(own, below);
  }

  /** The loop of convert_options over the children. */
  method ConvertChildren(cs: Children, parent: Option<nat>, groups: array<GroupRec>, group: nat, inputsEnd: nat)
    returns (group': nat, inputsEnd': nat)
    requires group + NumGroupsAll(cs) <= groups.Length
    modifies groups
    ensures var nodes := NodesAll(cs, parent, 0, group);
            && group' == group + |nodes| && inputsEnd' == inputsEnd + Inputs(nodes)
            && Replaced(old(groups[..]), group, group', Records(nodes, inputsEnd), groups[..])
    decreases cs
  {
    hide Records, Inputs, Replaced, Nodes, NodesAll, NumGroups, NumGroupsAll;
    ghost var was, nodes, filled := groups[..], NodesAll(cs, parent, 0, group), [];
    SizesAgreeAll(cs, parent, 0, group);
    ReplacedNothing(was, group);
    NothingFilled(nodes, inputsEnd);
    group', inputsEnd' := group, inputsEnd;
    var child, i := cs, 0;
    while child.Child?
      invariant child == cs || child < cs
      invariant nodes == filled + NodesAll(child, parent, i, group')
      invariant group' == group + |filled| && inputsEnd' == inputsEnd + Inputs(filled)
      invariant Replaced(was, group, group', Records(filled, inputsEnd), groups[..])
      decreases child
    {
      ghost var now, from, base, more := groups[..], group', inputsEnd', Nodes(child.argp, parent, i, group');
      NodesStep(nodes, filled, child, parent, i, group');
      group', inputsEnd' := ConvertOptions(child.argp, parent, i, groups, group', inputsEnd');
      ReplacedMore(was, group, from, group', Records(filled, inputsEnd), now, Records(more, base), groups[..]);
      RecordsConcat(filled, more, inputsEnd);
      InputsConcat(filled, more);
      filled, child, i := filled + more, child.next, i + 1;
    }
    NodesDone(nodes, filled, parent, i, group');
  }

  lemma NodesStep(nodes: seq<Node>, filled: seq<Node>, child: Children, parent: Option<nat>, i: nat, at: nat)
    requires child.Child? && nodes == filled + NodesAll(child, parent, i, at)
    ensures var more := Nodes(child.argp, parent, i, at);
            && |more| == NumGroups(child.argp) && |filled| + |more| <= |nodes|
            && nodes == filled + more + NodesAll(child.next, parent, i + 1, at + |more|)
  {
    SizesAgree(child.argp, parent, i, at);
    hide Nodes;
  }

  lemma NothingFilled(nodes: seq<Node>, base: nat)
    ensures Inputs([]) == 0 && Records([], base) == [] && nodes == [] + nodes
  {
  }

  lemma NodesDone(nodes: seq<Node>, filled: seq<Node>, parent: Option<nat>, i: nat, at: nat)
    requires nodes == filled + NodesAll(End, parent, i, at)
    ensures nodes == filled
  {
  }

  /** parser_convert after calc_sizes, for a parser that may be null. */
  method ParserConvert(argp: Option<Argp>) returns (groups: seq<GroupRec>, inputs: nat)
    ensures groups == Records(if argp.Some? then Nodes(argp.value, None, 0, 0) else [], 0)
    ensures inputs == if argp.Some? then NumInputs(argp.value) else 0
    ensures ArgpsOf(NodesOf(groups)) == if argp.Some? then Kept(Preorder(argp.value)) else []
    ensures forall i :: 0 <= i < |groups| ==>
              && (groups[i].inputs.Some? <==> groups[i].node.argp.children.Child?)
              && (groups[i].inputs.Some? ==> groups[i].inputs.value + Count(groups[i].node.argp.children) <= inputs)
    ensures ChildrenLinked(NodesOf(groups), 0)
    ensures forall i :: 0 <= i < |groups| && groups[i].node.parent.Some? ==>
              && groups[i].node.parent.value < i
              && NthChild(groups[groups[i].node.parent.value].node.argp.children, groups[i].node.index)
                 == Some(groups[i].node.argp)
  {
    if argp.None? {
      return [], 0;
    }
    var a, size := argp.value, 0;
    size, inputs := CalcSizes(a, 0, 0);
    var blank := Record(Node(a, None, 0), 0);
    var table := new GroupRec[size + 1](_ => blank);
    var end, used := ConvertOptions(a, None, 0, table, 0, 0);
    groups := table[..end];
    ConvertedTree(a, groups);
  }

  /** The groups of a whole tree: inputs within the reserved slots, parents before their children. */
  lemma ConvertedTree(a: Argp, groups: seq<GroupRec>)
    requires groups == Records(Nodes(a, None, 0, 0), 0)
    ensures ArgpsOf(NodesOf(groups)) == Kept(Preorder(a))
    ensures forall i :: 0 <= i < |groups| ==>
              && (groups[i].inputs.Some? <==> groups[i].node.argp.children.Child?)
              && (groups[i].inputs.Some? ==>
                    groups[i].inputs.value + Count(groups[i].node.argp.children) <= NumInputs(a))
    ensures ChildrenLinked(NodesOf(groups), 0)
    ensures forall i :: 0 <= i < |groups| && groups[i].node.parent.Some? ==>
              && groups[i].node.parent.value < i
              && NthChild(groups[groups[i].node.parent.value].node.argp.children, groups[i].node.index)
                 == Some(groups[i].node.argp)
  {
    hide Nodes, Records, NumInputs, NthChild, Kept, Preorder, ChildrenLinked;
    var nodes := Nodes(a, None, 0, 0);
    InputsFit(a, None, 0, 0);
    ParentsLinked(a, None, 0, 0, End);
    forall i | 0 <= i < |nodes|
      ensures groups[i] == Record(nodes[i], Inputs(nodes[..i])) && LinkOk(nodes, 0, Child(a, End), None, 0, i)
      ensures Inputs(nodes[..i]) + Count(nodes[i].argp.children) <= NumInputs(a)
    {
      RecordAt(nodes, 0, i);
    }
    assert NodesOf(groups) == nodes;
    GroupsAre(a, None, 0, 0);
    ChildrenAreLinked(a, None, 0, 0);
  }
}
