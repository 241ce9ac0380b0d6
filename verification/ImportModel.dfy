/**
 Importing the nodes of a graph. The reference is a denotation that knows nothing of any order: the value of
 a name is that of the graph input, or what the importer of the node producing it makes of the values of that
 node's inputs.
 */
module ImportModel {
  import opened Options
  import opened Toposort
  import opened Importer
  import opened Sequences

  type Env = map<string, Value>

  /** The registered importers, the nodes of the graph, and the graph inputs with their values. */
  datatype Model = Model(importers: Importers, nodes: seq<Node>, base: Env)

  // ----- one node

  /** importNode. */
  function RunNode(importers: Importers, node: Node, inputs: seq<Value>): Result<seq<Output>> {
    if node.op !in importers then Error(UnsupportedNode)
    else
      var r := importers[node.op](node, inputs);
      if r.None? then Error(ImporterFailed)
      else if |r.value| > |node.outputs| then Error(InternalError)
      else Ok(r.value)
  }

  /** The first declared output has a shape to log. */
  predicate HasShape(node: Node, outs: seq<Output>) {
    node.outputs == [] || (outs != [] && !outs[0].Null?)
  }

  // ----- the denotation

  /** The producer of a name. */
  ghost function Producer(nodes: seq<Node>, name: string): (r: Option<Slot>)
    ensures r.Some? ==> IsSlot(nodes, r.value) && NameAt(nodes, r.value) == name
    ensures r.None? ==> forall p :: IsSlot(nodes, p) ==> NameAt(nodes, p) != name
  {
    if exists p :: IsSlot(nodes, p) && NameAt(nodes, p) == name
    then var p :| IsSlot(nodes, p) && NameAt(nodes, p) == name; Some(p)
    else None
  }

  /** The value of a name, looking through at most `depth` nodes. */
  ghost function Eval(m: Model, name: string, depth: nat): Option<Value>
    decreases depth, 0
  {
    if name in m.base then Some(m.base[name])
    else
      var p := Producer(m.nodes, name);
      if depth == 0 || p.None? then None
      else
        var r := EvalNode(m, p.value.node, depth - 1);
        Provided(r, p.value.out)
  }

  /** What a node provides as its output number i. */
  ghost function Provided(r: Result<seq<Output>>, i: nat): Option<Value> {
    if r.Ok? && i < |r.value| && r.value[i].Given? then Some(r.value[i].value) else None
  }

  ghost function EvalNode(m: Model, k: nat, depth: nat): (r: Result<seq<Output>>)
    ensures r.Ok? ==> k < |m.nodes| && |r.value| <= |m.nodes[k].outputs|
    decreases depth, 2
  {
    if k >= |m.nodes| then Error(OutOfRange)
    else
      var inputs := EvalAll(m, m.nodes[k].inputs, depth);
      if inputs.None? then Error(MissingInput) else RunNode(m.importers, m.nodes[k], inputs.value)
  }

  ghost function EvalAll(m: Model, names: seq<string>, depth: nat): Option<seq<Value>>
    decreases depth, 1, |names|
  {
    if names == [] then Some([])
    else
      var n := |names| - 1;
      var rest := EvalAll(m, names[..n], depth);
      var last := Eval(m, names[n], depth);
      if rest.None? || last.None? then None else Some(rest.value + [last.value])
  }

  /** The denotation: no path of producers is longer than the number of nodes. */
  ghost function Meaning(m: Model, name: string): Option<Value> {
    Eval(m, name, |m.nodes|)
  }

  ghost function NodeMeaning(m: Model, k: nat): Result<seq<Output>> {
    EvalNode(m, k, |m.nodes|)
  }

  /** Node k has a value, binds no name that is a graph input, and has a shape to log. */
  ghost predicate NodeOk(m: Model, k: nat) {
    var r := NodeMeaning(m, k);
    r.Ok? && HasShape(m.nodes[k], r.value) && forall i :: 0 <= i < |r.value| && r.value[i].Given? ==>
      m.nodes[k].outputs[i] !in m.base
  }

  ghost predicate Denotes(m: Model, tensors: Env) {
    && (forall name :: name in tensors ==> Meaning(m, name) == Some(tensors[name]))
    && (forall name :: Meaning(m, name).Some? ==> name in tensors)
  }

  /** Whatever order two imports take, they bind the same names to the same values. */
  lemma DenotationIsUnique(m: Model, a: Env, b: Env)
    requires Denotes(m, a) && Denotes(m, b)
    ensures a == b
  {
    forall name ensures name in a <==> name in b {
      assert Meaning(m, name).Some? ==> name in a && name in b;
    }
    forall name | name in a ensures a[name] == b[name] {
      assert Meaning(m, name) == Some(a[name]) == Some(b[name]);
    }
  }

  // ----- the denotation of a sorted graph does not depend on the depth

  lemma {:induction false} NodeIsSteadyAt(m: Model, order: seq<nat>, t: nat)
    requires Sorted(m, order) && t < |order|
    ensures Steady(m, order[t], t)
    decreases t
  {
    var k := order[t];
    assert k in order;
    forall i | 0 <= i < t ensures Steady(m, order[i], i) {
      NodeIsSteadyAt(m, order, i);
    }
    forall depth: nat | t <= depth ensures EvalNode(m, k, depth) == NodeMeaning(m, k) {
      InputsAreSteady(m, order, t, m.nodes[k].inputs, depth);
    }
  }

  lemma {:induction false} InputsAreSteady(m: Model, order: seq<nat>, t: nat, names: seq<string>, depth: nat)
    requires Sorted(m, order) && t < |order| && order[t] < |m.nodes| && t <= depth
    requires forall i :: 0 <= i < t ==> Steady(m, order[i], i)
    requires forall name :: name in names ==> name in m.nodes[order[t]].inputs
    ensures EvalAll(m, names, depth) == EvalAll(m, names, |m.nodes|)
  {
    if names != [] {
      var n := |names| - 1;
      InputsAreSteady(m, order, t, names[..n], depth);
      InputIsSteady(m, order, t, names[n], depth);
    }
  }

  lemma InputIsSteady(m: Model, order: seq<nat>, t: nat, name: string, depth: nat)
    requires Sorted(m, order) && t < |order| && order[t] < |m.nodes| && t <= depth && name in m.nodes[order[t]].inputs
    requires forall i :: 0 <= i < t ==> Steady(m, order[i], i)
    ensures Eval(m, name, depth) == Meaning(m, name)
  {
    var p := Producer(m.nodes, name);
    if p.Some? {
      assert Edge(m.nodes, order[t], p.value.node);
      assert p.value.node in order[..t];
      var i :| 0 <= i < t && order[i] == p.value.node;
      assert EvalNode(m, p.value.node, depth - 1) == NodeMeaning(m, p.value.node);
      assert EvalNode(m, p.value.node, |m.nodes| - 1) == NodeMeaning(m, p.value.node);
    }
  }

  lemma {:induction false} MeaningsOfInputs(m: Model, names: seq<string>)
    ensures EvalAll(m, names, |m.nodes|).Some? <==> forall i :: 0 <= i < |names| ==> Meaning(m, names[i]).Some?
    ensures EvalAll(m, names, |m.nodes|).Some? ==>
      var vs := EvalAll(m, names, |m.nodes|).value;
      |vs| == |names| && forall i :: 0 <= i < |names| ==> Meaning(m, names[i]) == Some(vs[i])
  {
    if names != [] {
      MeaningsOfInputs(m, names[..|names| - 1]);
    }
  }

  /** vs are the meanings of the inputs of node k, in the order in which it names them. */
  ghost predicate AreInputs(m: Model, k: nat, vs: seq<Value>)
    requires k < |m.nodes|
  {
    var names := m.nodes[k].inputs;
    |vs| == |names| && forall i :: 0 <= i < |names| ==> Meaning(m, names[i]) == Some(vs[i])
  }

  /** What an importer that is given the node and vs makes of them: outputs if there is an importer, it does not fail
      and it returns no more outputs than the node declares; and otherwise the error that says which of these is not so.
      */
  ghost predicate ImportedFrom(importers: Importers, node: Node, vs: seq<Value>, r: Result<seq<Output>>) {
    && (node.op !in importers ==> r == Error(UnsupportedNode))
    && (node.op in importers ==>
      var made := importers[node.op](node, vs);
      && (made.None? ==> r == Error(ImporterFailed))
      && (made.Some? && |made.value| > |node.outputs| ==> r == Error(InternalError))
      && (forall outs :: r == Ok(outs) <==> made == Some(outs) && |outs| <= |node.outputs|))
  }

  /** A node means what its importer makes of the meanings of its inputs; without one of them it means nothing. */
  lemma NodeEquation(m: Model, k: nat)
    requires k < |m.nodes|
    ensures forall vs :: AreInputs(m, k, vs) ==> ImportedFrom(m.importers, m.nodes[k], vs, NodeMeaning(m, k))
    ensures (exists i :: 0 <= i < |m.nodes[k].inputs| && Meaning(m, m.nodes[k].inputs[i]).None?) ==>
      NodeMeaning(m, k) == Error(MissingInput)
  {
    var names := m.nodes[k].inputs;
    MeaningsOfInputs(m, names);
    var inputs := EvalAll(m, names, |m.nodes|);
    forall vs | AreInputs(m, k, vs) ensures ImportedFrom(m.importers, m.nodes[k], vs, NodeMeaning(m, k)) {
      assert inputs.Some? && inputs.value == vs;
    }
  }

  /** When a node is right, in terms of what its importer returns: no provided output takes the name of a graph input,
      and if outputs are declared there is a first one, which is not null. */
  lemma NodeOkIff(m: Model, k: nat, vs: seq<Value>)
    requires k < |m.nodes| && AreInputs(m, k, vs)
    ensures
      var node := m.nodes[k];
      NodeOk(m, k) <==>
        && node.op in m.importers && m.importers[node.op](node, vs).Some?
        && var outs := m.importers[node.op](node, vs).value;
          && |outs| <= |node.outputs| && (node.outputs != [] ==> outs != [] && outs[0] != Null)
          && forall i :: 0 <= i < |outs| && outs[i].Given? ==> node.outputs[i] !in m.base
  {
    NodeEquation(m, k);
  }

  /** On a sorted graph the denotation is what it should be: a name means what its producer provides, and a node means
      what its importer makes of the meanings of its inputs. Looking through more nodes changes nothing. */
  lemma MeaningEquation(m: Model, order: seq<nat>, name: string, depth: nat)
    requires Sorted(m, order) && |m.nodes| <= depth
    ensures Eval(m, name, depth) == Meaning(m, name)
    ensures
      var p := Producer(m.nodes, name);
      Meaning(m, name) ==
        if name in m.base then Some(m.base[name])
        else if p.None? then None
        else
          var r, out := NodeMeaning(m, p.value.node), p.value.out;
          if r.Ok? && out < |r.value| && r.value[out].Given? then Some(r.value[out].value) else None
    ensures forall k, vs | 0 <= k < |m.nodes| && AreInputs(m, k, vs) ::
      ImportedFrom(m.importers, m.nodes[k], vs, NodeMeaning(m, k))
  {
    ProducerProvides(m, order, name, depth);
    forall k, vs | 0 <= k < |m.nodes| && AreInputs(m, k, vs)
      ensures ImportedFrom(m.importers, m.nodes[k], vs, NodeMeaning(m, k))
    {
      NodeEquation(m, k);
    }
  }

  lemma ProducerProvides(m: Model, order: seq<nat>, name: string, depth: nat)
    requires Sorted(m, order) && |m.nodes| <= depth
    ensures Eval(m, name, depth) == Meaning(m, name)
    ensures
      var p := Producer(m.nodes, name);
      name !in m.base && p.Some? ==> Meaning(m, name) == Provided(NodeMeaning(m, p.value.node), p.value.out)
  {
    var p := Producer(m.nodes, name);
    if p.Some? {
      assert p.value.node in order;
      var i :| 0 <= i < |order| && order[i] == p.value.node;
      NodeIsSteadyAt(m, order, i);
      assert EvalNode(m, p.value.node, depth - 1) == NodeMeaning(m, p.value.node);
      assert EvalNode(m, p.value.node, |m.nodes| - 1) == NodeMeaning(m, p.value.node);
    }
  }

  // ----- what holds between two nodes of the loop

  /** Everything bound is what the denotation says, at any depth that looks through the nodes done. */
  ghost predicate Sound(m: Model, tensors: Env, t: nat) {
    forall name, depth: nat :: name in tensors && t <= depth ==> Eval(m, name, depth) == Some(tensors[name])
  }

  /** The value of node k is the same at any depth that looks through the nodes before it. */
  ghost predicate Steady(m: Model, k: nat, t: nat) {
    forall depth: nat :: t <= depth ==> EvalNode(m, k, depth) == NodeMeaning(m, k)
  }

  /** A node that has been done is right, and what it provides is bound. */
  ghost predicate DoneRight(m: Model, tensors: Env, k: nat) {
    NodeOk(m, k) &&
    var r := NodeMeaning(m, k).value;
    forall i :: 0 <= i < |r| && r[i].Given? ==> m.nodes[k].outputs[i] in tensors
  }

  ghost predicate LoopInv(m: Model, tensors: Env, order: seq<nat>, t: nat)
    requires t <= |order|
  {
    && (forall name :: name in m.base ==> name in tensors)
    && Sound(m, tensors, t)
    && (forall name :: name in tensors ==> name in m.base || ProvidedBy(m, order[..t], name))
    && (forall i :: 0 <= i < t ==> DoneRight(m, tensors, order[i]) && Steady(m, order[i], i))
  }

  ghost predicate ProvidedBy(m: Model, done: seq<nat>, name: string) {
    exists k :: k in done && k < |m.nodes| && name in m.nodes[k].outputs
  }

  ghost predicate Sorted(m: Model, order: seq<nat>) {
    UniqueOutputs(m.nodes) && IsTopological(m.nodes, order) && |order| == |m.nodes|
  }

  lemma {:induction false} EvalAllBound(m: Model, names: seq<string>, vs: seq<Value>, depth: nat)
    requires |vs| == |names|
    requires forall i :: 0 <= i < |names| ==> Eval(m, names[i], depth) == Some(vs[i])
    ensures EvalAll(m, names, depth) == Some(vs)
  {
    if names != [] {
      var n := |names| - 1;
      EvalAllBound(m, names[..n], vs[..n], depth);
      assert vs == vs[..n] + [vs[n]];
    }
  }

  lemma {:induction false} EvalAllMissing(m: Model, names: seq<string>, i: nat, depth: nat)
    requires i < |names| && Eval(m, names[i], depth).None?
    ensures EvalAll(m, names, depth).None?
  {
    var n := |names| - 1;
    if i < n { EvalAllMissing(m, names[..n], i, depth); }
  }

  /** Nothing provides this name: it is no graph input, and a node that declares it has run and left it out. */
  ghost predicate Unprovided(m: Model, name: string) {
    name !in m.base && forall p :: IsSlot(m.nodes, p) && NameAt(m.nodes, p) == name ==> LeavesOut(m, p)
  }

  ghost predicate LeavesOut(m: Model, p: Slot) {
    var r := NodeMeaning(m, p.node);
    r.Ok? && (p.out >= |r.value| || !r.value[p.out].Given?)
  }

  lemma UnboundIsUnprovided(m: Model, tensors: Env, order: seq<nat>, t: nat, name: string)
    requires Sorted(m, order) && t < |order| && order[t] < |m.nodes|
    requires LoopInv(m, tensors, order, t)
    requires name in m.nodes[order[t]].inputs && name !in tensors
    ensures Unprovided(m, name)
  {
    forall p | IsSlot(m.nodes, p) && NameAt(m.nodes, p) == name ensures LeavesOut(m, p) {
      assert Edge(m.nodes, order[t], p.node);
      assert p.node in order[..t];
      var i :| 0 <= i < t && order[i] == p.node;
      assert DoneRight(m, tensors, order[i]);
    }
  }

  /** A name that is not bound when a node needs it has no value at all. */
  lemma UnboundHasNoMeaning(m: Model, tensors: Env, order: seq<nat>, t: nat, name: string)
    requires Sorted(m, order) && t < |order| && order[t] < |m.nodes|
    requires LoopInv(m, tensors, order, t)
    requires name in m.nodes[order[t]].inputs && name !in tensors
    ensures Meaning(m, name).None?
  {
    var p := Producer(m.nodes, name);
    if p.Some? {
      assert Edge(m.nodes, order[t], p.value.node);
      assert p.value.node in order[..t];
      var i :| 0 <= i < t && order[i] == p.value.node;
      assert DoneRight(m, tensors, order[i]) && Steady(m, order[i], i);
      assert EvalNode(m, p.value.node, |m.nodes| - 1) == NodeMeaning(m, p.value.node);
    }
  }

  /** The values read for a node are those of its inputs, so running it gives its meaning. */
  lemma NodeIsSteady(m: Model, tensors: Env, order: seq<nat>, t: nat, vs: seq<Value>)
    requires Sorted(m, order) && t < |order| && order[t] < |m.nodes| && LoopInv(m, tensors, order, t)
    requires |vs| == |m.nodes[order[t]].inputs|
    requires forall i :: 0 <= i < |vs| ==>
      m.nodes[order[t]].inputs[i] in tensors && vs[i] == tensors[m.nodes[order[t]].inputs[i]]
    ensures NodeMeaning(m, order[t]) == RunNode(m.importers, m.nodes[order[t]], vs)
    ensures Steady(m, order[t], t)
  {
    var k := order[t];
    forall depth: nat | t <= depth ensures EvalNode(m, k, depth) == RunNode(m.importers, m.nodes[k], vs) {
      EvalAllBound(m, m.nodes[k].inputs, vs, depth);
    }
  }

  /** What node k provides under the first n of its output names. */
  ghost function Provide(node: Node, outs: seq<Output>, tensors: Env, n: nat): Env
    requires n <= |outs| <= |node.outputs|
  {
    if n == 0 then tensors
    else
      var env := Provide(node, outs, tensors, n - 1);
      if outs[n - 1].Given? then env[node.outputs[n - 1] := outs[n - 1].value] else env
  }

  lemma {:induction false} ProvideBinds(m: Model, k: nat, outs: seq<Output>, tensors: Env, n: nat)
    requires UniqueOutputs(m.nodes) && k < |m.nodes| && n <= |outs| <= |m.nodes[k].outputs|
    ensures var env := Provide(m.nodes[k], outs, tensors, n);
      && (forall i :: 0 <= i < n && outs[i].Given? ==>
        m.nodes[k].outputs[i] in env && env[m.nodes[k].outputs[i]] == outs[i].value)
      && (forall name :: name in env ==> name in tensors || exists i ::
        0 <= i < n && m.nodes[k].outputs[i] == name && outs[i].Given?)
      && (forall name :: name in tensors ==> name in env)
      && (forall name :: name in env && (forall i :: 0 <= i < n ==> m.nodes[k].outputs[i] != name) ==>
        name in tensors && env[name] == tensors[name])
  {
    if n > 0 {
      ProvideBinds(m, k, outs, tensors, n - 1);
      forall i | 0 <= i < n - 1 ensures m.nodes[k].outputs[i] != m.nodes[k].outputs[n - 1] {
        assert NameAt(m.nodes, Slot(k, i)) == m.nodes[k].outputs[i];
        assert NameAt(m.nodes, Slot(k, n - 1)) == m.nodes[k].outputs[n - 1];
      }
    }
  }

  /** One name in two places is one place. */
  lemma SameName(m: Model, p: Slot, q: Slot)
    requires UniqueOutputs(m.nodes) && IsSlot(m.nodes, p) && IsSlot(m.nodes, q) &&
      NameAt(m.nodes, p) == NameAt(m.nodes, q)
    ensures p == q
  {
  }

  /** A name a node is about to bind is taken only by a graph input. */
  lemma TakenByInput(m: Model, tensors: Env, order: seq<nat>, t: nat, outs: seq<Output>, i: nat)
    requires Sorted(m, order) && t < |order| && order[t] < |m.nodes| && LoopInv(m, tensors, order, t)
    requires i < |outs| <= |m.nodes[order[t]].outputs|
    requires m.nodes[order[t]].outputs[i] in Provide(m.nodes[order[t]], outs, tensors, i)
    ensures m.nodes[order[t]].outputs[i] in m.base
  {
    var k := order[t];
    var name := m.nodes[k].outputs[i];
    ProvideBinds(m, k, outs, tensors, i);
    if name in tensors {
      if name !in m.base {
        var k' :| k' in order[..t] && k' < |m.nodes| && name in m.nodes[k'].outputs;
        var j :| 0 <= j < |m.nodes[k'].outputs| && m.nodes[k'].outputs[j] == name;
        SameName(m, Slot(k, i), Slot(k', j));
      }
    } else {
      var j :| 0 <= j < i && m.nodes[k].outputs[j] == name;
      SameName(m, Slot(k, i), Slot(k, j));
    }
  }

  /** A node that has run and bound its outputs takes the invariant one node further. */
  lemma NodeStep(m: Model, tensors: Env, order: seq<nat>, t: nat, outs: seq<Output>)
    requires Sorted(m, order) && t < |order| && order[t] < |m.nodes| && LoopInv(m, tensors, order, t)
    requires NodeMeaning(m, order[t]) == Ok(outs) && Steady(m, order[t], t)
    requires forall i :: 0 <= i < |outs| && outs[i].Given? ==> m.nodes[order[t]].outputs[i] !in tensors
    requires HasShape(m.nodes[order[t]], outs)
    ensures |outs| <= |m.nodes[order[t]].outputs|
    ensures LoopInv(m, Provide(m.nodes[order[t]], outs, tensors, |outs|), order, t + 1)
  {
    var k := order[t];
    var env := Provide(m.nodes[k], outs, tensors, |outs|);
    ProvideBinds(m, k, outs, tensors, |outs|);
    forall name | name in tensors ensures name in env && env[name] == tensors[name] {
      KeptBinding(m, k, outs, tensors, name);
    }
    NewIsSound(m, tensors, order, t, outs);
    forall name | name in env ensures name in m.base || ProvidedBy(m, order[..t + 1], name) {
      NewIsProvided(m, tensors, order, t, outs, name);
    }
    forall i | 0 <= i < t ensures DoneRight(m, env, order[i]) && Steady(m, order[i], i) {
      assert DoneRight(m, tensors, order[i]);
    }
    assert NodeOk(m, k);
    assert DoneRight(m, env, k);
  }

  lemma NewIsProvided(m: Model, tensors: Env, order: seq<nat>, t: nat, outs: seq<Output>, name: string)
    requires UniqueOutputs(m.nodes) && t < |order| && order[t] < |m.nodes| && |outs| <= |m.nodes[order[t]].outputs|
    requires name in tensors ==> name in m.base || ProvidedBy(m, order[..t], name)
    requires name in Provide(m.nodes[order[t]], outs, tensors, |outs|)
    ensures name in m.base || ProvidedBy(m, order[..t + 1], name)
  {
    ProvideBinds(m, order[t], outs, tensors, |outs|);
    assert order[..t + 1] == order[..t] + [order[t]];
    if name in tensors && name !in m.base {
      var k :| k in order[..t] && k < |m.nodes| && name in m.nodes[k].outputs;
      assert k in order[..t + 1];
    } else if name !in tensors {
      assert order[t] in order[..t + 1];
    }
  }

  lemma KeptBinding(m: Model, k: nat, outs: seq<Output>, tensors: Env, name: string)
    requires k < |m.nodes| && |outs| <= |m.nodes[k].outputs| && name in tensors
    requires forall i :: 0 <= i < |outs| && outs[i].Given? ==> m.nodes[k].outputs[i] !in tensors
    ensures var env := Provide(m.nodes[k], outs, tensors, |outs|); name in env && env[name] == tensors[name]
  {
    KeptUpTo(m.nodes[k], outs, tensors, |outs|, name);
  }

  lemma {:induction false} KeptUpTo(node: Node, outs: seq<Output>, tensors: Env, n: nat, name: string)
    requires n <= |outs| <= |node.outputs| && name in tensors
    requires forall i :: 0 <= i < |outs| && outs[i].Given? ==> node.outputs[i] !in tensors
    ensures name in Provide(node, outs, tensors, n) && Provide(node, outs, tensors, n)[name] == tensors[name]
  {
    if n > 0 { KeptUpTo(node, outs, tensors, n - 1, name); }
  }

  lemma NewIsSound(m: Model, tensors: Env, order: seq<nat>, t: nat, outs: seq<Output>)
    requires Sorted(m, order) && t < |order| && order[t] < |m.nodes| && LoopInv(m, tensors, order, t)
    requires NodeMeaning(m, order[t]) == Ok(outs) && Steady(m, order[t], t)
    requires forall i :: 0 <= i < |outs| && outs[i].Given? ==> m.nodes[order[t]].outputs[i] !in tensors
    ensures |outs| <= |m.nodes[order[t]].outputs|
    ensures Sound(m, Provide(m.nodes[order[t]], outs, tensors, |outs|), t + 1)
  {
    var k := order[t];
    var env := Provide(m.nodes[k], outs, tensors, |outs|);
    ProvideBinds(m, k, outs, tensors, |outs|);
    forall name, depth: nat | name in env && t + 1 <= depth ensures Eval(m, name, depth) == Some(env[name]) {
      if name in tensors {
        KeptBinding(m, k, outs, tensors, name);
      } else {
        var i :| 0 <= i < |outs| && m.nodes[k].outputs[i] == name && outs[i].Given?;
        assert NameAt(m.nodes, Slot(k, i)) == name;
        SameName(m, Slot(k, i), Producer(m.nodes, name).value);
        assert EvalNode(m, k, depth - 1) == NodeMeaning(m, k);
      }
    }
  }

  /** When every node has been done, what is bound is the denotation. */
  lemma AllDone(m: Model, tensors: Env, order: seq<nat>)
    requires Sorted(m, order) && LoopInv(m, tensors, order, |order|)
    ensures Denotes(m, tensors)
    ensures forall k :: 0 <= k < |m.nodes| ==> NodeOk(m, k)
  {
    forall k | 0 <= k < |m.nodes| ensures NodeOk(m, k) {
      assert k in order;
      var i :| 0 <= i < |order| && order[i] == k;
      assert DoneRight(m, tensors, order[i]);
    }
    forall name | Meaning(m, name).Some? ensures name in tensors {
      if name !in m.base {
        var p := Producer(m.nodes, name).value;
        assert p.node in order;
        var i :| 0 <= i < |order| && order[i] == p.node;
        assert DoneRight(m, tensors, order[i]) && Steady(m, order[i], i);
        assert EvalNode(m, p.node, |m.nodes| - 1) == NodeMeaning(m, p.node);
      }
    }
  }

  lemma PermutationLength(n: nat, order: seq<nat>)
    requires IsPermutation(n, order)
    ensures |order| == n
  {
    DistinctSize(order);
    ElementsBelow(n, set x | x in order);
  }

  lemma {:induction false} ElementsBelow(n: nat, all: set<nat>)
    requires forall k: nat :: k in all <==> k < n
    ensures |all| == n
  {
    if n == 0 {
      assert all == {};
    } else {
      ElementsBelow(n - 1, all - {n - 1});
    }
  }

  // ----- the importer

  class ModelImporter {
    const importers: Importers
    var currentNode: int

    constructor (importers: Importers)
      ensures this.importers == importers && currentNode == -1
    {
      this.importers := importers;
      currentNode := -1;
    }

    /** The values bound to the inputs of a node. */
    method ReadInputs(names: seq<string>, tensors: Env) returns (r: Result<seq<Value>>)
      ensures r.Ok? ==> |r.value| == |names|
      ensures r.Ok? ==> forall i :: 0 <= i < |names| ==> names[i] in tensors && r.value[i] == tensors[names[i]]
      ensures r.Error? ==> r.code == MissingInput && exists i :: 0 <= i < |names| && names[i] !in tensors
    {
      var vs: seq<Value> := [];
      for i := 0 to |names|
        invariant |vs| == i
        invariant forall j :: 0 <= j < i ==> names[j] in tensors && vs[j] == tensors[names[j]]
      {
        if names[i] !in tensors {
          return Error(MissingInput);
        }
        vs := vs + [tensors[names[i]]];
      }
      r := Ok(vs);
    }

    /** Binds the outputs a node has provided, each to a name that is still free. */
    method BindOutputs(node: Node, outs: seq<Output>, before: Env) returns (r: Result<Env>)
      requires |outs| <= |node.outputs|
      ensures r.Ok? ==> r.value == Provide(node, outs, before, |outs|)
      ensures r.Ok? ==> forall i :: 0 <= i < |outs| && outs[i].Given? ==> node.outputs[i] !in before
      ensures r.Error? ==> r.code == NameTaken && exists i ::
        0 <= i < |outs| && outs[i].Given? && node.outputs[i] in Provide(node, outs, before, i)
    {
      var tensors := before;
      for i := 0 to |outs|
        invariant tensors == Provide(node, outs, before, i)
        invariant forall name :: name in before ==> name in tensors
        invariant forall j :: 0 <= j < i && outs[j].Given? ==> node.outputs[j] !in before
      {
        if outs[i].Given? {
          if node.outputs[i] in tensors {
            return Error(NameTaken);
          }
          tensors := tensors[node.outputs[i] := outs[i].value];
        }
      }
      r := Ok(tensors);
    }

    /** The node loop. It succeeds exactly when every node has a meaning and no node rebinds a graph input,
        whatever topological order it is given, and then binds the denotation. A failure names a node
        that is at fault, and a missing input is a name that nothing provides. */
    method ImportNodes(nodes: seq<Node>, base: Env, order: seq<nat>) returns (r: Result<Env>)
      requires UniqueOutputs(nodes) && IsTopological(nodes, order)
      modifies this
      ensures r.Ok? <==> forall k :: 0 <= k < |nodes| ==> NodeOk(Model(importers, nodes, base), k)
      ensures r.Ok? ==> Denotes(Model(importers, nodes, base), r.value) && currentNode == -1
      ensures r.Error? ==> 0 <= currentNode < |nodes| && !NodeOk(Model(importers, nodes, base), currentNode)
      ensures r == Error(MissingInput) ==>
        exists name :: name in nodes[currentNode].inputs && Unprovided(Model(importers, nodes, base), name)
    {
      ghost var m := Model(importers, nodes, base);
      PermutationLength(|nodes|, order);
      var tensors := base;
      for t := 0 to |order|
        invariant LoopInv(m, tensors, order, t)
      {
        var k := order[t];
        assert k in order;
        currentNode := k;
        var node := nodes[k];
        var inputs := ReadInputs(node.inputs, tensors);
        if inputs.Error? {
          ghost var i :| 0 <= i < |node.inputs| && node.inputs[i] !in tensors;
          UnboundIsUnprovided(m, tensors, order, t, node.inputs[i]);
          UnboundHasNoMeaning(m, tensors, order, t, node.inputs[i]);
          EvalAllMissing(m, node.inputs, i, |nodes|);
          assert !NodeOk(m, k);
          return Error(MissingInput);
        }
        NodeIsSteady(m, tensors, order, t, inputs.value);
        var outs := RunNode(importers, node, inputs.value);
        if outs.Error? {
          assert !NodeOk(m, k);
          return Error(outs.code);
        }
        var bound := BindOutputs(node, outs.value, tensors);
        if bound.Error? {
          ghost var i :| 0 <= i < |outs.value| && outs.value[i].Given? &&
            node.outputs[i] in Provide(node, outs.value, tensors, i);
          TakenByInput(m, tensors, order, t, outs.value, i);
          assert !NodeOk(m, k);
          return Error(NameTaken);
        }
        if !HasShape(node, outs.value) {
          assert !NodeOk(m, k);
          return Error(OutOfRange);
        }
        NodeStep(m, tensors, order, t, outs.value);
        tensors := bound.value;
      }
      AllDone(m, tensors, order);
      currentNode := -1;
      r := Ok(tensors);
    }

    /** importModel up to the marking of the outputs: it succeeds exactly on the models that make sense, and
        then binds their denotation. */
    method ImportModel(g: Graph) returns (r: Result<Env>)
      modifies this
      ensures r.Ok? <==> exists base :: ModelOk(importers, g, base)
      ensures r.Ok? ==> exists base :: ModelOk(importers, g, base) && Denotes(Model(importers, g.nodes, base), r.value)
    {
      var base := ImportInputs(g);
      if base.Error? {
        return Error(base.code);
      }
      forall other | BindsInputs(g, g.inputs, other) ensures other == base.value {
        InputsBoundOneWay(g, base.value, other);
      }
      var ok, order := Sort(g.nodes);
      if !ok {
        return Error(InvalidGraph);
      }
      r := ImportNodes(g.nodes, base.value, order);
      assert r.Ok? ==> ModelOk(importers, g, base.value);
    }
  }

  ghost predicate ModelOk(importers: Importers, g: Graph, base: Env) {
    && InputsOk(g) && BindsInputs(g, g.inputs, base)
    && UniqueOutputs(g.nodes) && Acyclic(g.nodes)
    && forall k :: 0 <= k < |g.nodes| ==> NodeOk(Model(importers, g.nodes, base), k)
  }

  lemma InputsBoundOneWay(g: Graph, a: Env, b: Env)
    requires BindsInputs(g, g.inputs, a) && BindsInputs(g, g.inputs, b)
    ensures a == b
  {
    forall name ensures name in a <==> name in b {
      if name in a { var i :| 0 <= i < |g.inputs| && g.inputs[i].name == name; }
      if name in b { var i :| 0 <= i < |g.inputs| && g.inputs[i].name == name; }
    }
    forall name | name in a ensures a[name] == b[name] {
      var i :| 0 <= i < |g.inputs| && g.inputs[i].name == name;
    }
  }
}
