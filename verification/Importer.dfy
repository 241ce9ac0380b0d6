/**
 The graph part of the ONNX importer (3rdparty/onnx-tensorrt/ModelImporter.cpp): graph inputs are bound to
 weights or network inputs, the nodes are sorted, and each node's importer is run on the values of its
 inputs. Importers of single operators are arbitrary pure functions of the node and those values.
 */
module Importer {
  import opened Options
  import opened Toposort

  /** The error codes; kINVALID_GRAPH is split by the check that raises it, and OutOfRange stands for reading the
      shape of a first output that is not there, or is a null tensor. */
  datatype ErrorCode =
    | InvalidGraph | MissingInput | NameTaken
    | InvalidValue | UnsupportedNode | ImporterFailed | InternalError | OutOfRange

  datatype Result<T> = Ok(value: T) | Error(code: ErrorCode)

  /** A tensor of the network under construction, or weights. */
  datatype Value = Tensor(tensor: int) | Weights(weights: int)

  /** What a node importer returns for an output: a null tensor, empty weights, or a value. The first two bind
      nothing. */
  datatype Output = Null | Empty | Given(value: Value)

  /** What a node importer returns, unless it fails: the first outputs. */
  type Importers = map<string, (Node, seq<Value>) -> Option<seq<Output>>>

  // ----- graph inputs

  /** A named initializer or weight descriptor, with the weights it converts to, if it does. */
  datatype Source = Source(name: string, converted: Result<Value>)

  datatype Graph = Graph(
    inputs: seq<Source>,        // each with what importInput would make of it
    initializers: seq<Source>,
    table: Table,
    nodes: seq<Node>)

  /** The weight descriptors: as many as their count says, or null in spite of the count. */
  datatype Table = Table(entries: seq<Source>) | NullTable(count: nat) {
    function Count(): nat { if Table? then |entries| else count }

    function Entries(): seq<Source> { if Table? then entries else [] }
  }

  ghost predicate UniqueNames(sources: seq<Source>) {
    forall i, j :: 0 <= i < j < |sources| ==> sources[i].name != sources[j].name
  }

  function Find(sources: seq<Source>, name: string): (r: Option<Result<Value>>)
    ensures r.Some? <==> exists k :: 0 <= k < |sources| && sources[k].name == name
  {
    if sources == [] then None
    else
      var last := sources[|sources| - 1];
      if last.name == name then Some(last.converted) else Find(sources[..|sources| - 1], name)
  }

  /** The value a graph input should have: an initializer's, else a descriptor's, else its own tensor. */
  function InputValue(g: Graph, input: Source): Result<Value> {
    var i, d := Find(g.initializers, input.name), Find(g.table.Entries(), input.name);
    if i.Some? then i.value else if d.Some? then d.value else input.converted
  }

  /** The same case by case: an initializer of the input's name decides; if there is none, a descriptor of that name; if
      there is none either, the input's own tensor. */
  ghost predicate IsValueOf(g: Graph, input: Source, v: Result<Value>) {
    var i, d := g.initializers, g.table.Entries();
    && (forall k :: 0 <= k < |i| && i[k].name == input.name ==> v == i[k].converted)
    && ((forall k :: 0 <= k < |i| ==> i[k].name != input.name) ==>
      && (forall k :: 0 <= k < |d| && d[k].name == input.name ==> v == d[k].converted)
      && ((forall k :: 0 <= k < |d| ==> d[k].name != input.name) ==> v == input.converted))
  }

  lemma {:induction false} FindsTheOne(sources: seq<Source>, name: string, k: nat)
    requires UniqueNames(sources) && k < |sources| && sources[k].name == name
    ensures Find(sources, name) == Some(sources[k].converted)
  {
    var n := |sources| - 1;
    if k < n { FindsTheOne(sources[..n], name, k); }
  }

  lemma InputValueIs(g: Graph, input: Source)
    requires UniqueNames(g.initializers) && UniqueNames(g.table.Entries())
    ensures IsValueOf(g, input, InputValue(g, input))
  {
    var i, d := g.initializers, g.table.Entries();
    forall k | 0 <= k < |i| && i[k].name == input.name ensures InputValue(g, input) == i[k].converted {
      FindsTheOne(i, input.name, k);
    }
    forall k | 0 <= k < |d| && d[k].name == input.name ensures Find(d, input.name) == Some(d[k].converted) {
      FindsTheOne(d, input.name, k);
    }
  }

  ghost predicate InputsOk(g: Graph) {
    && UniqueNames(g.initializers) && UniqueNames(g.table.Entries()) && UniqueNames(g.inputs)
    && (g.table.Count() == 0 || (g.initializers == [] && g.table.Table?))
    && forall i :: 0 <= i < |g.inputs| ==> InputValue(g, g.inputs[i]).Ok?
  }

  /** Exactly the graph inputs are bound, each to its value. */
  ghost predicate BindsInputs(g: Graph, inputs: seq<Source>, tensors: map<string, Value>) {
    && (forall i :: 0 <= i < |inputs| ==>
      inputs[i].name in tensors && Ok(tensors[inputs[i].name]) == InputValue(g, inputs[i]))
    && (forall name :: name in tensors ==> exists i :: 0 <= i < |inputs| && inputs[i].name == name)
  }

  lemma UniqueSnoc(sources: seq<Source>, i: nat)
    requires i < |sources| && UniqueNames(sources[..i])
    ensures UniqueNames(sources[..i + 1]) <==> Find(sources[..i], sources[i].name).None?
    ensures !UniqueNames(sources[..i + 1]) ==> !UniqueNames(sources)
  {
    var s := sources[..i + 1];
    assert forall k :: 0 <= k < i ==> s[k] == sources[..i][k];
  }

  /** A table from names to sources; fails on a repeated name. */
  method MapSources(sources: seq<Source>) returns (ok: bool, m: map<string, Result<Value>>)
    ensures ok <==> UniqueNames(sources)
    ensures ok ==> forall name :: Tabulates(m, sources, name)
  {
    m := map[];
    for i := 0 to |sources|
      invariant UniqueNames(sources[..i])
      invariant forall name :: Tabulates(m, sources[..i], name)
    {
      UniqueSnoc(sources, i);
      assert sources[..i + 1][..i] == sources[..i];
      assert Tabulates(m, sources[..i], sources[i].name);
      if sources[i].name in m {
        return false, m;
      }
      ghost var before, seen := m, sources[..i + 1];
      m := m[sources[i].name := sources[i].converted];
      forall name ensures Tabulates(m, seen, name) {
        assert Tabulates(before, sources[..i], name);
      }
    }
    assert sources[..|sources|] == sources;
    ok := true;
  }

  /** importInputs. */
  method ImportInputs(g: Graph) returns (r: Result<map<string, Value>>)
    ensures r.Ok? <==> InputsOk(g)
    ensures r.Ok? ==> BindsInputs(g, g.inputs, r.value)
    ensures r.Ok? ==> forall i :: 0 <= i < |g.inputs| ==>
      g.inputs[i].name in r.value && IsValueOf(g, g.inputs[i], Ok(r.value[g.inputs[i].name]))
  {
    var ok, initializers := MapSources(g.initializers);
    if !ok { return Error(InvalidGraph); }
    assert g.initializers != [] ==> Tabulates(initializers, g.initializers, g.initializers[0].name);
    assert initializers != map[] ==> exists name ::
      name in initializers && Tabulates(initializers, g.initializers, name);
    if g.table.Count() != 0 && initializers != map[] {
      return Error(InvalidValue);
    }
    if g.table.Count() != 0 && g.table.NullTable? {
      return Error(InvalidValue);
    }
    var descriptors;
    ok, descriptors := MapSources(g.table.Entries());
    if !ok { return Error(InvalidValue); }
    r := BindInputs(g, initializers, descriptors);
    forall i | 0 <= i < |g.inputs| ensures IsValueOf(g, g.inputs[i], InputValue(g, g.inputs[i])) {
      InputValueIs(g, g.inputs[i]);
    }
  }

  predicate Tabulates(m: map<string, Result<Value>>, sources: seq<Source>, name: string) {
    (if name in m then Some(m[name]) else None) == Find(sources, name)
  }

  method ValueFor(g: Graph, initializers: map<string, Result<Value>>, descriptors: map<string, Result<Value>>,
                  input: Source)
    returns (v: Result<Value>)
    requires forall name ::
      Tabulates(initializers, g.initializers, name) && Tabulates(descriptors, g.table.Entries(), name)
    ensures v == InputValue(g, input)
  {
    assert Tabulates(initializers, g.initializers, input.name) && Tabulates(descriptors, g.table.Entries(), input.name);
    v := input.converted;
    if input.name in initializers {
      v := initializers[input.name];
    } else if input.name in descriptors {
      v := descriptors[input.name];
    }
  }

  /** The loop over the graph inputs. */
  method BindInputs(g: Graph, initializers: map<string, Result<Value>>, descriptors: map<string, Result<Value>>)
    returns (r: Result<map<string, Value>>)
    requires forall name ::
      Tabulates(initializers, g.initializers, name) && Tabulates(descriptors, g.table.Entries(), name)
    ensures r.Ok? <==> UniqueNames(g.inputs) && forall i :: 0 <= i < |g.inputs| ==> InputValue(g, g.inputs[i]).Ok?
    ensures r.Ok? ==> BindsInputs(g, g.inputs, r.value)
  {
    var tensors: map<string, Value> := map[];
    for i := 0 to |g.inputs|
      invariant BindsInputs(g, g.inputs[..i], tensors) && UniqueNames(g.inputs[..i])
      invariant forall k :: 0 <= k < i ==> InputValue(g, g.inputs[k]).Ok?
    {
      var input := g.inputs[i];
      var v := ValueFor(g, initializers, descriptors, input);
      UniqueSnoc(g.inputs, i);
      match v
      case Error(code) => return Error(code);
      case Ok(value) =>
        if input.name in tensors {
          return Error(InvalidGraph);
        }
        BindOne(g, i, tensors, value);
        tensors := tensors[input.name := value];
    }
    assert g.inputs[..|g.inputs|] == g.inputs;
    r := Ok(tensors);
  }

  lemma BindOne(g: Graph, i: nat, tensors: map<string, Value>, value: Value)
    requires i < |g.inputs| && BindsInputs(g, g.inputs[..i], tensors)
    requires InputValue(g, g.inputs[i]) == Ok(value) && g.inputs[i].name !in tensors
    ensures BindsInputs(g, g.inputs[..i + 1], tensors[g.inputs[i].name := value])
  {
    var before, now := g.inputs[..i], g.inputs[..i + 1];
    assert now[i] == g.inputs[i];
    assert forall k :: 0 <= k < i ==> now[k] == before[k];
    forall name | name in tensors ensures exists k :: 0 <= k < |now| && now[k].name == name {
      var k :| 0 <= k < |before| && before[k].name == name;
      assert now[k].name == name;
    }
  }
}
