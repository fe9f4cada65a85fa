/**
 * `groupNodes`: cutting the node list, in input order, into clipping groups, and
 * the re-ordering `cachePsdParsedData` applies to the groups before compiling
 * them (the group list reversed, then every group reversed).
 */
module Grouping {
  import opened Wrappers
  import opened Layers

  /** The concatenation of the groups, in order. */
  function Flatten<T>(gs: seq<seq<T>>): seq<T>
    decreases |gs|
  {
    if |gs| == 0 then [] else Flatten(gs[..|gs| - 1]) + gs[|gs| - 1]
  }

  lemma FlattenSnoc<T>(gs: seq<seq<T>>, g: seq<T>)
    ensures Flatten(gs + [g]) == Flatten(gs) + g
  {
    assert (gs + [g])[..|gs|] == gs;
  }

  /**
   * The state of the `forEach` in `groupNodes`. `groupedNodes` always ends
   * with `currentGroup` (the array pushed last is the one still being filled),
   * so the state is the groups already left behind, the current group, and
   * `clippingMaskName` (None while it is still `undefined`).
   */
  datatype GroupState = GroupState(closed: seq<seq<Layer>>, current: seq<Layer>, active: Option<string>)

  /** `currentGroup = []`, `groupedNodes = [currentGroup]`, `clippingMaskName` undefined. */
  function Start(): GroupState { GroupState([], [], None) }

  /** The value of `groupedNodes` in a state. */
  function Output(st: GroupState): (o: seq<seq<Layer>>)
    ensures |o| == |st.closed| + 1
  {
    st.closed + [st.current]
  }

  /** `clipEle && clippingMaskName !== clipEle.get('name')`. */
  predicate Opens(st: GroupState, node: Layer)
  {
    node.clipSource.Some? && st.active != node.clipSource
  }

  /** `node.get('name') === clippingMaskName`, reached only when the node did not open a group. */
  predicate Closes(st: GroupState, node: Layer)
  {
    !Opens(st, node) && st.active == Some(node.name)
  }

  /** One iteration of the `forEach` callback. */
  function Step(st: GroupState, node: Layer): (r: GroupState)
    ensures r.active == (if Opens(st, node) then node.clipSource else st.active)
    ensures |st.closed| <= |r.closed| <= |st.closed| + 1 && r.closed[..|st.closed|] == st.closed
    ensures Opens(st, node) ==> r.current == [node] && |r.closed| == |st.closed| + 1 && r.closed[|st.closed|] == st.current
    ensures Closes(st, node) ==> r.current == [] && |r.closed| == |st.closed| + 1 && r.closed[|st.closed|] == st.current + [node]
    ensures !Opens(st, node) && !Closes(st, node) ==> r.closed == st.closed && r.current == st.current + [node]
  {
    if Opens(st, node) then
      GroupState(st.closed + [st.current], [node], node.clipSource)
    else if st.active == Some(node.name) then
      GroupState(st.closed + [st.current + [node]], [], st.active)
    else
      st.(current := st.current + [node])
  }

  /** The state after the callback has run on every node of `nodes`, in order. */
  function Run(nodes: seq<Layer>): (r: GroupState)
    ensures |r.closed| <= |nodes|
    decreases |nodes|
  {
    if |nodes| == 0 then Start() else Step(Run(nodes[..|nodes| - 1]), nodes[|nodes| - 1])
  }

  /** What `groupNodes(nodes)` returns. */
  function Groups(nodes: seq<Layer>): (r: seq<seq<Layer>>)
    ensures 1 <= |r| <= |nodes| + 1
  {
    Output(Run(nodes))
  }

  /** `groupNodes`, as the one-pass loop the source runs. */
  method GroupNodes(nodes: seq<Layer>) returns (groupedNodes: seq<seq<Layer>>)
    ensures groupedNodes == Groups(nodes)
    ensures |groupedNodes| >= 1
  {
    var closed: seq<seq<Layer>> := [];
    var currentGroup: seq<Layer> := [];
    var clippingMaskName: Option<string> := None;
    for i := 0 to |nodes|
      invariant GroupState(closed, currentGroup, clippingMaskName) == Run(nodes[..i])
    {
      assert nodes[..i + 1][..i] == nodes[..i];
      var node := nodes[i];
      if node.clipSource.Some? && clippingMaskName != node.clipSource {
        clippingMaskName := node.clipSource;
        closed := closed + [currentGroup];   // createNewGroup()
        currentGroup := [node];
      } else if clippingMaskName == Some(node.name) {
        currentGroup := currentGroup + [node];
        closed := closed + [currentGroup];   // createNewGroup()
        currentGroup := [];
      } else {
        currentGroup := currentGroup + [node];
      }
    }
    assert nodes[..|nodes|] == nodes;
    groupedNodes := closed + [currentGroup];
  }

  /** One step moves the node into the groups without losing or reordering anything. */
  lemma StepFlatten(s: GroupState, x: Layer)
    ensures Flatten(Step(s, x).closed) + Step(s, x).current == Flatten(s.closed) + s.current + [x]
  {
    if Opens(s, x) {
      FlattenSnoc(s.closed, s.current);
    } else if s.active == Some(x.name) {
      FlattenSnoc(s.closed, s.current + [x]);
    }
  }

  /** Running one more node is one more step. */
  lemma RunSnoc(p: seq<Layer>, x: Layer)
    ensures Run(p + [x]) == Step(Run(p), x)
  {
    assert (p + [x])[..|p|] == p;
  }

  /** The groups left behind plus the current group hold exactly the nodes seen so far. */
  lemma {:induction false} RunFlatten(nodes: seq<Layer>)
    ensures Flatten(Run(nodes).closed) + Run(nodes).current == nodes
    decreases |nodes|
  {
    if |nodes| > 0 {
      var p, x := nodes[..|nodes| - 1], nodes[|nodes| - 1];
      RunFlatten(p);
      assert p + [x] == nodes;
      RunSnoc(p, x);
      StepFlatten(Run(p), x);
    }
  }

  /** No node is dropped or duplicated: the groups concatenate to the input. */
  lemma GroupsFlatten(nodes: seq<Layer>)
    ensures Flatten(Groups(nodes)) == nodes
    ensures multiset(Flatten(Groups(nodes))) == multiset(nodes)
  {
    RunFlatten(nodes);
    FlattenSnoc(Run(nodes).closed, Run(nodes).current);
  }

  /**
   * `o2` continues `o`: every group of `o` but the last is a group of `o2` at
   * the same place, and the last group of `o` is a prefix of `o2`'s group there.
   */
  ghost predicate Extends<T>(o: seq<seq<T>>, o2: seq<seq<T>>)
  {
    1 <= |o| <= |o2| && o[..|o| - 1] == o2[..|o| - 1] && o[|o| - 1] <= o2[|o| - 1]
  }

  lemma StepExtends(st: GroupState, node: Layer)
    ensures Extends(Output(st), Output(Step(st, node)))
  {
    var o, o2 := Output(st), Output(Step(st, node));
    assert o[..|o| - 1] == st.closed;
    if Opens(st, node) || st.active == Some(node.name) {
      assert o2[..|o| - 1] == st.closed;
    } else {
      assert o2 == st.closed + [st.current + [node]];
      assert o2[..|o| - 1] == st.closed;
    }
  }

  lemma ExtendsTransitive<T>(a: seq<seq<T>>, b: seq<seq<T>>, c: seq<seq<T>>)
    requires Extends(a, b) && Extends(b, c)
    ensures Extends(a, c)
  {
    var n := |a| - 1;
    if |a| < |b| {
      assert a[..n] == b[..n] == b[..|b| - 1][..n] == c[..|b| - 1][..n] == c[..n];
      assert b[n] == c[n];
    } else {
      assert a[..n] == c[..n];
    }
  }

  /** Later nodes only ever add to the end: earlier groups are never touched again. */
  lemma {:induction false} RunExtends(nodes: seq<Layer>, j: nat)
    requires j <= |nodes|
    ensures Extends(Output(Run(nodes[..j])), Groups(nodes))
    decreases |nodes|
  {
    if j == |nodes| {
      assert nodes[..j] == nodes;
    } else {
      var p := nodes[..|nodes| - 1];
      assert p[..j] == nodes[..j];
      RunExtends(p, j);
      StepExtends(Run(p), nodes[|nodes| - 1]);
      ExtendsTransitive(Output(Run(nodes[..j])), Output(Run(p)), Groups(nodes));
    }
  }

  /** The clipping name in force when the callback reaches node `i`. */
  function ActiveBefore(nodes: seq<Layer>, i: nat): Option<string>
    requires i <= |nodes|
  {
    Run(nodes[..i]).active
  }

  /** The state after node `i` is one step on from the state before it. */
  lemma RunOneMore(nodes: seq<Layer>, i: nat)
    requires i < |nodes|
    ensures nodes[..i + 1] == nodes[..i] + [nodes[i]]
    ensures Run(nodes[..i + 1]) == Step(Run(nodes[..i]), nodes[i])
  {
    assert nodes[..i + 1][..i] == nodes[..i];
  }

  /** Closing the current group with a node puts it just after the nodes seen so far. */
  lemma CloseFlatten(s: GroupState, x: Layer, p: seq<Layer>)
    requires Flatten(s.closed) + s.current == p
    ensures Flatten(s.closed + [s.current + [x]]) == p + [x]
  {
    FlattenSnoc(s.closed, s.current + [x]);
  }

  /**
   * A node whose clip source differs from the active clipping name starts a
   * fresh group as its first member: the groups before it hold exactly the
   * nodes before it, and its clip source becomes the active name.
   */
  lemma OpeningNode(nodes: seq<Layer>, i: nat)
    requires i < |nodes|
    requires Opens(Run(nodes[..i]), nodes[i])
    ensures var g := |Run(nodes[..i]).closed| + 1;
      g < |Groups(nodes)| && [nodes[i]] <= Groups(nodes)[g] && Flatten(Groups(nodes)[..g]) == nodes[..i]
    ensures ActiveBefore(nodes, i + 1) == nodes[i].clipSource
  {
    var s := Run(nodes[..i]);
    var g := |s.closed| + 1;
    RunOneMore(nodes, i);
    RunExtends(nodes, i + 1);
    var o1 := Output(Step(s, nodes[i]));
    assert o1 == s.closed + [s.current] + [[nodes[i]]];
    assert o1[..g] == s.closed + [s.current];
    RunFlatten(nodes[..i]);
    FlattenSnoc(s.closed, s.current);
  }

  /**
   * A node named like the active clipping name (and not opening a group)
   * becomes the last member of the current group, which is then closed; the
   * active name stays; when the node is the last one, an empty group trails.
   */
  lemma ClosingNode(nodes: seq<Layer>, i: nat)
    requires i < |nodes|
    requires Closes(Run(nodes[..i]), nodes[i])
    ensures var g := |Run(nodes[..i]).closed| + 1;
      && g < |Groups(nodes)|
      && Groups(nodes)[g - 1] == Run(nodes[..i]).current + [nodes[i]]
      && Flatten(Groups(nodes)[..g]) == nodes[..i + 1]
      && (i + 1 == |nodes| ==> Groups(nodes)[g] == [])
    ensures ActiveBefore(nodes, i + 1) == ActiveBefore(nodes, i)
  {
    var s := Run(nodes[..i]);
    var x := nodes[i];
    var o := Groups(nodes);
    RunOneMore(nodes, i);
    RunExtends(nodes, i + 1);
    ClosedGroupsStay(s, x, o);
    RunFlatten(nodes[..i]);
    CloseFlatten(s, x, nodes[..i]);
    if i + 1 == |nodes| {
      assert nodes[..i + 1] == nodes;
    }
  }

  /** What a closing step leaves behind survives in every continuation. */
  lemma ClosedGroupsStay(s: GroupState, x: Layer, o: seq<seq<Layer>>)
    requires Closes(s, x)
    requires Extends(Output(Step(s, x)), o)
    ensures var g := |s.closed| + 1;
      g < |o| && o[..g] == s.closed + [s.current + [x]] && o[g - 1] == s.current + [x]
      && (|o| == g + 1 && Output(Step(s, x)) == o ==> o[g] == [])
  {
    var o1 := Output(Step(s, x));
    assert o1 == s.closed + [s.current + [x]] + [[]];
    assert o1[..|o1| - 1] == s.closed + [s.current + [x]];
  }

  /** Any other node is appended to the current group, which stays open. */
  lemma AppendingNode(nodes: seq<Layer>, i: nat)
    requires i < |nodes|
    requires !Opens(Run(nodes[..i]), nodes[i]) && !Closes(Run(nodes[..i]), nodes[i])
    ensures var g := |Run(nodes[..i]).closed|;
      g < |Groups(nodes)| && Run(nodes[..i]).current + [nodes[i]] <= Groups(nodes)[g]
      && Flatten(Groups(nodes)[..g]) + Run(nodes[..i]).current == nodes[..i]
    ensures ActiveBefore(nodes, i + 1) == ActiveBefore(nodes, i)
  {
    var s := Run(nodes[..i]);
    RunOneMore(nodes, i);
    RunExtends(nodes, i + 1);
    var o1 := Output(Step(s, nodes[i]));
    assert o1 == s.closed + [s.current + [nodes[i]]];
    assert o1[..|s.closed|] == s.closed;
    RunFlatten(nodes[..i]);
  }

  /** Two layers clipped by "mask1", the mask itself first, stay together after the initial empty group. */
  lemma SharedClipSourceScenario(bitmap: Kind)
    ensures var mask := Layer("mask1", Some("mask1"), bitmap, true, 0, 0, 1, 1, "");
            var a := Layer("layerA", Some("mask1"), bitmap, true, 0, 0, 1, 1, "");
            Groups([mask, a]) == [[], [mask, a]]
  {
    var mask := Layer("mask1", Some("mask1"), bitmap, true, 0, 0, 1, 1, "");
    var a := Layer("layerA", Some("mask1"), bitmap, true, 0, 0, 1, 1, "");
    assert [mask, a][..1] == [mask];
    assert [mask][..0] == [];
    assert Run([mask]) == Step(Start(), mask);
    assert Run([mask]) == GroupState([[]], [mask], Some("mask1"));
    assert Run([mask, a]) == Step(Run([mask]), a);
    assert Step(Run([mask]), a) == GroupState([[]], [mask, a], Some("mask1"));
  }

  // ---------------------------------------------------------------------
  // Re-ordering: `groupNodes(nodes).reverse()`, then `nodeArr.reverse()` per group.

  function Reversed<T>(s: seq<T>): (r: seq<T>)
    ensures |r| == |s|
  {
    seq(|s|, i requires 0 <= i < |s| => s[|s| - 1 - i])
  }

  lemma ReversedConcat<T>(a: seq<T>, b: seq<T>)
    ensures Reversed(a + b) == Reversed(b) + Reversed(a)
  {
    var l, r := Reversed(a + b), Reversed(b) + Reversed(a);
    forall i | 0 <= i < |l| ensures l[i] == r[i] {
      if i < |b| {
        assert r[i] == b[|b| - 1 - i];
      } else {
        assert r[i] == Reversed(a)[i - |b|];
      }
    }
  }

  /** The nodes in the order the nested `forEach` visits them: each group reversed, groups in list order. */
  function ProcessingOrder<T>(groups: seq<seq<T>>): (r: seq<T>)
    ensures |r| == |Flatten(groups)|
    decreases |groups|
  {
    if |groups| == 0 then [] else ProcessingOrder(groups[..|groups| - 1]) + Reversed(groups[|groups| - 1])
  }

  lemma {:induction false} ProcessingOrderConcat<T>(x: seq<seq<T>>, y: seq<seq<T>>)
    ensures ProcessingOrder(x + y) == ProcessingOrder(x) + ProcessingOrder(y)
    decreases |y|
  {
    if |y| == 0 {
      assert x + y == x;
    } else {
      var xy, y0, last := x + y, y[..|y| - 1], y[|y| - 1];
      ProcessingOrderConcat(x, y0);
      assert xy[..|xy| - 1] == x + y0 && xy[|xy| - 1] == last;
      assert ProcessingOrder(xy) == ProcessingOrder(x + y0) + Reversed(last);
      assert ProcessingOrder(y) == ProcessingOrder(y0) + Reversed(last);
    }
  }

  /** The visited prefix after some groups is a prefix of the full visiting order. */
  lemma {:induction false} ProcessingOrderPrefix<T>(groups: seq<seq<T>>, j: nat)
    requires j <= |groups|
    ensures ProcessingOrder(groups[..j]) <= ProcessingOrder(groups)
  {
    assert groups == groups[..j] + groups[j..];
    ProcessingOrderConcat(groups[..j], groups[j..]);
  }

  /** Reversing the group list and then every group visits the nodes in exactly reversed order. */
  lemma {:induction false} ProcessingOrderReverses<T>(groups: seq<seq<T>>)
    ensures ProcessingOrder(Reversed(groups)) == Reversed(Flatten(groups))
    decreases |groups|
  {
    if |groups| > 0 {
      var init, last := groups[..|groups| - 1], groups[|groups| - 1];
      ProcessingOrderReverses(init);
      assert Reversed(groups) == [last] + Reversed(init);
      ProcessingOrderConcat([last], Reversed(init));
      assert ProcessingOrder([last]) == Reversed(last) by {
        assert [last][..0] == [];
      }
      ReversedConcat(Flatten(init), last);
    } else {
      assert Reversed(groups) == [];
    }
  }

  /** The order in which `cachePsdParsedData` compiles the nodes is the input order reversed. */
  lemma CompileOrderIsReversedInput(nodes: seq<Layer>)
    ensures ProcessingOrder(Reversed(Groups(nodes))) == Reversed(nodes)
  {
    ProcessingOrderReverses(Groups(nodes));
    GroupsFlatten(nodes);
  }
}
