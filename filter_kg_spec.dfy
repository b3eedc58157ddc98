/**
  The pure rules of the ARAX `filter_kg` front end: parameter values, the
  knowledge graph the rules look at, the "allowable parameters" tables, the
  parameter check and, per action, what a handler appends to the response
  log, how it rewrites the parameters and whether it hands over to the
  removal collaborator. The stateful engine in module FilterKG is proved
  against these functions.
 */
module FilterKGSpec {
  import opened Wrappers
  import opened OrderedDict
  import opened Strings

  /** A parameter value as the action parser hands it over. */
  datatype Value = Str(s: string) | Num(x: real) | Bool(b: bool) | NoneValue

  /** The action parameters: a dict from names to values. */
  type Params = Dict<string, Value>

  /** The three filter actions; a closed set instead of a method-name lookup. */
  datatype Action = RemoveEdgesByType | RemoveEdgesByAttribute | RemoveNodesByType

  function ActionName(a: Action): string {
    match a
    case RemoveEdgesByType => "remove_edges_by_type"
    case RemoveEdgesByAttribute => "remove_edges_by_attribute"
    case RemoveNodesByType => "remove_nodes_by_type"
  }

  const AllowableActions: set<string> :=
    {"remove_edges_by_type", "remove_edges_by_attribute", "remove_nodes_by_type"}

  /** The action a parameter value names, if it names one of the allowable actions. */
  function ParseAction(v: Value): (r: Option<Action>)
    ensures r.Some? <==> v.Str? && v.s in AllowableActions
    ensures r.Some? ==> v == Str(ActionName(r.value))
  {
    if v == Str("remove_edges_by_type") then Some(RemoveEdgesByType)
    else if v == Str("remove_edges_by_attribute") then Some(RemoveEdgesByAttribute)
    else if v == Str("remove_nodes_by_type") then Some(RemoveNodesByType)
    else None
  }

  /** Every action's name is allowable and parses back to that action. */
  lemma ActionNameRoundTrip(a: Action)
    ensures ActionName(a) in AllowableActions
    ensures ParseAction(Str(ActionName(a))) == Some(a)
  {
  }

  // ---------------------------------------------------------------------------
  // The response log

  /** Error codes; KeyError, TypeError and ValueError are the names of the
      exception raised by `float(...)`, and Unspecified is the code the
      response gives an error logged without one. */
  datatype ErrorCode =
    | ParametersNotDict | MissingAction | UnknownAction | UnknownParameter | UnknownValue
    | KeyError | TypeError | ValueError | Unspecified

  datatype LogEntry = Error(code: ErrorCode) | Debug

  /** `response.status == 'OK'`: no error has been logged. */
  predicate StatusOk(log: seq<LogEntry>) {
    forall i :: 0 <= i < |log| ==> !log[i].Error?
  }

  lemma StatusOkAppend(a: seq<LogEntry>, b: seq<LogEntry>)
    ensures StatusOk(a + b) <==> StatusOk(a) && StatusOk(b)
  {
    assert forall i :: 0 <= i < |a| ==> (a + b)[i] == a[i];
    assert forall i :: 0 <= i < |b| ==> (a + b)[|a| + i] == b[i];
    if !StatusOk(a + b) {
      var i :| 0 <= i < |a + b| && (a + b)[i].Error?;
      if i >= |a| { assert b[i - |a|] == (a + b)[i]; }
    }
  }

  // ---------------------------------------------------------------------------
  // The message and its knowledge graph, as far as the filter reads them

  datatype Attribute = Attribute(name: string)
  /** `attributes` is `None` when the edge has no `edge_attributes`; an
      `edge_attributes` that exists but holds None is not represented. */
  datatype Edge = Edge(edgeType: string, attributes: Option<seq<Attribute>>)
  datatype Node = Node(types: seq<string>)
  datatype KnowledgeGraph = KnowledgeGraph(nodes: seq<Node>, edges: seq<Edge>)
  /** Which of `edges` and `nodes` the query graph object carries. */
  datatype QueryGraph = QueryGraph(hasEdges: bool, hasNodes: bool)
  datatype Message = Message(queryGraph: Option<QueryGraph>, knowledgeGraph: Option<KnowledgeGraph>)

  predicate QueryGraphHasEdges(m: Option<Message>) {
    m.Some? && m.value.queryGraph.Some? && m.value.queryGraph.value.hasEdges
  }

  predicate QueryGraphHasNodes(m: Option<Message>) {
    m.Some? && m.value.queryGraph.Some? && m.value.queryGraph.value.hasNodes
  }

  predicate HasKnowledgeGraph(m: Option<Message>) {
    m.Some? && m.value.knowledgeGraph.Some?
  }

  /** What remove_edges_by_type relies on: once it has a message, parameters
      and a query graph with edges, it reads the knowledge graph's edges. */
  predicate EdgesReadable(m: Option<Message>, paramsTruthy: bool) {
    paramsTruthy && QueryGraphHasEdges(m) ==> HasKnowledgeGraph(m)
  }

  /** What remove_nodes_by_type relies on, for the query graph's nodes. */
  predicate NodesReadable(m: Option<Message>, paramsTruthy: bool) {
    paramsTruthy && QueryGraphHasNodes(m) ==> HasKnowledgeGraph(m)
  }

  /** What the handler for one action relies on; remove_edges_by_attribute
      checks for the knowledge graph itself and relies on nothing. */
  predicate HandlerReadable(a: Action, m: Option<Message>, paramsTruthy: bool) {
    match a
    case RemoveEdgesByType => EdgesReadable(m, paramsTruthy)
    case RemoveEdgesByAttribute => true
    case RemoveNodesByType => NodesReadable(m, paramsTruthy)
  }

  // ---------------------------------------------------------------------------
  // The allowable-parameters tables

  /** Each permitted key with its permitted values. */
  type Table = map<string, set<Value>>

  const ConnectedKey := "remove_connected_nodes"

  const FlagStrings: set<Value> :=
    {Str("true"), Str("false"), Str("True"), Str("False"), Str("t"), Str("f")}

  function EdgeTypes(edges: seq<Edge>): set<Value> {
    set i | 0 <= i < |edges| :: Str(edges[i].edgeType)
  }

  function NodeTypes(nodes: seq<Node>): set<Value> {
    set i, j | 0 <= i < |nodes| && 0 <= j < |nodes[i].types| :: Str(nodes[i].types[j])
  }

  /** The names in one attribute list. */
  function Names(attrs: seq<Attribute>): set<string> {
    if attrs == [] then {} else Names(attrs[..|attrs| - 1]) + {attrs[|attrs| - 1].name}
  }

  /** The names of the attributes of all edges that have attributes. */
  function AttributeNames(edges: seq<Edge>): set<string> {
    if edges == [] then {}
    else
      var e := edges[|edges| - 1];
      AttributeNames(edges[..|edges| - 1]) + (if e.attributes.Some? then Names(e.attributes.value) else {})
  }

  predicate HasAttributeNamed(edges: seq<Edge>, n: string) {
    exists i, j :: 0 <= i < |edges| && edges[i].attributes.Some? && 0 <= j < |edges[i].attributes.value|
                   && edges[i].attributes.value[j].name == n
  }

  lemma {:induction false} NamesExact(attrs: seq<Attribute>, n: string)
    ensures n in Names(attrs) <==> exists j :: 0 <= j < |attrs| && attrs[j].name == n
  {
    if attrs != [] {
      var init := attrs[..|attrs| - 1];
      NamesExact(init, n);
      assert forall j :: 0 <= j < |init| ==> init[j] == attrs[j];
    }
  }

  /** The attribute-name set is exactly the names found on the edges. */
  lemma {:induction false} AttributeNamesExact(edges: seq<Edge>, n: string)
    ensures n in AttributeNames(edges) <==> HasAttributeNamed(edges, n)
  {
    if edges != [] {
      var init := edges[..|edges| - 1];
      var e := edges[|edges| - 1];
      AttributeNamesExact(init, n);
      assert forall i :: 0 <= i < |init| ==> init[i] == edges[i];
      if e.attributes.Some? {
        NamesExact(e.attributes.value, n);
      }
      if HasAttributeNamed(edges, n) {
        var i, j :| 0 <= i < |edges| && edges[i].attributes.Some? && 0 <= j < |edges[i].attributes.value|
                    && edges[i].attributes.value[j].name == n;
        if i < |init| {
          assert HasAttributeNamed(init, n);
        }
      }
    }
  }

  function StrSet(ns: set<string>): set<Value> {
    set n | n in ns :: Str(n)
  }

  /** The table of remove_edges_by_type; the real edge types are used only
      when a message, parameters and a query graph with edges are present. */
  function EdgesByTypeTable(m: Option<Message>, paramsTruthy: bool): Table
    requires EdgesReadable(m, paramsTruthy)
  {
    map[
      "action" := {Str("remove_edges_by_type")},
      "edge_type" := if paramsTruthy && QueryGraphHasEdges(m)
                     then EdgeTypes(m.value.knowledgeGraph.value.edges) else {Str("an edge type")},
      ConnectedKey := FlagStrings]
  }

  /** The table of remove_edges_by_attribute, given whether the knowledge
      graph was there to read and the attribute names found on it; with
      the graph the threshold's set holds the float 0.0, without it a
      placeholder string. */
  function EdgesByAttributeTableWith(graphRead: bool, known: set<string>): Table {
    if graphRead then
      map[
        "action" := {Str("remove_edges_by_attribute")},
        "edge_attribute" := StrSet(known),
        "direction" := {Str("above"), Str("below")},
        "threshold" := {Num(0.0)},
        ConnectedKey := FlagStrings]
    else
      map[
        "action" := {Str("remove_edges_by_attribute")},
        "edge_attribute" := {Str("an edge attribute name")},
        "direction" := {Str("above"), Str("below")},
        "threshold" := {Str("a floating point number")},
        ConnectedKey := FlagStrings]
  }

  /** The graph is read when a message, parameters and a knowledge graph are present. */
  function EdgesByAttributeTable(m: Option<Message>, paramsTruthy: bool): Table {
    var graphRead := paramsTruthy && HasKnowledgeGraph(m);
    EdgesByAttributeTableWith(graphRead, if graphRead then AttributeNames(m.value.knowledgeGraph.value.edges) else {})
  }

  /** The table of remove_nodes_by_type. */
  function NodesByTypeTable(m: Option<Message>, paramsTruthy: bool): Table
    requires NodesReadable(m, paramsTruthy)
  {
    map[
      "action" := {Str("remove_nodes_by_type")},
      "node_type" := if paramsTruthy && QueryGraphHasNodes(m)
                     then NodeTypes(m.value.knowledgeGraph.value.nodes) else {Str("a node type")}]
  }

  /** With a graph, the permitted edge types are exactly the edges' types. */
  lemma EdgeTypeTableExact(m: Option<Message>, t: string)
    requires HasKnowledgeGraph(m) && QueryGraphHasEdges(m)
    ensures Str(t) in EdgesByTypeTable(m, true)["edge_type"]
            <==> exists e :: e in m.value.knowledgeGraph.value.edges && e.edgeType == t
  {
    var edges := m.value.knowledgeGraph.value.edges;
    if exists e :: e in edges && e.edgeType == t {
      var e :| e in edges && e.edgeType == t;
      var i :| 0 <= i < |edges| && edges[i] == e;
      assert Str(edges[i].edgeType) in EdgeTypes(edges);
    }
  }

  /** With a graph, the permitted node types are the union of the nodes' type lists. */
  lemma NodeTypeTableExact(m: Option<Message>, t: string)
    requires HasKnowledgeGraph(m) && QueryGraphHasNodes(m)
    ensures Str(t) in NodesByTypeTable(m, true)["node_type"]
            <==> exists n :: n in m.value.knowledgeGraph.value.nodes && t in n.types
  {
    var nodes := m.value.knowledgeGraph.value.nodes;
    if exists n :: n in nodes && t in n.types {
      var n :| n in nodes && t in n.types;
      var i :| 0 <= i < |nodes| && nodes[i] == n;
      var j :| 0 <= j < |n.types| && n.types[j] == t;
      assert Str(nodes[i].types[j]) in NodeTypes(nodes);
    }
  }

  /** With a knowledge graph, the permitted edge attributes are exactly the
      attribute names found on its edges. */
  lemma AttributeTableExact(m: Option<Message>, n: string)
    requires HasKnowledgeGraph(m)
    ensures Str(n) in EdgesByAttributeTable(m, true)["edge_attribute"]
            <==> HasAttributeNamed(m.value.knowledgeGraph.value.edges, n)
  {
    AttributeNamesExact(m.value.knowledgeGraph.value.edges, n);
  }

  // ---------------------------------------------------------------------------
  // check_params

  /** The set holds a float: then any value is let through and the check ends. */
  predicate HasFloat(vs: set<Value>) {
    exists v :: v in vs && v.Num?
  }

  /** No set of the table holds a float: check_params never stops early. */
  predicate NoFloatTable(t: Table) {
    forall k :: k in t ==> !HasFloat(t[k])
  }

  datatype Verdict = Accepted | KeyUnknown | ValueRejected | AnyNumber

  /** How check_params treats one key/value pair. */
  function Classify(k: string, v: Value, t: Table): Verdict {
    if k !in t then KeyUnknown
    else if v in t[k] then Accepted
    else if HasFloat(t[k]) then AnyNumber
    else ValueRejected
  }

  /** The entries check_params appends, in the dict's iteration order. */
  function CheckErrors(p: Params, t: Table): seq<LogEntry> {
    if p == [] then []
    else
      match Classify(p[0].0, p[0].1, t)
      case Accepted => CheckErrors(p[1..], t)
      case KeyUnknown => [Error(UnknownParameter)] + CheckErrors(p[1..], t)
      case ValueRejected => [Error(UnknownValue)] + CheckErrors(p[1..], t)
      case AnyNumber => []
  }

  /** Where check_params stops: the first pair whose value is not permitted
      but whose set holds a float, or the end of the dict. */
  function StopIndex(p: Params, t: Table): (n: nat)
    ensures n <= |p|
    ensures forall i :: 0 <= i < n ==> Classify(p[i].0, p[i].1, t) != AnyNumber
    ensures n < |p| ==> Classify(p[n].0, p[n].1, t) == AnyNumber
  {
    if p == [] then 0
    else if Classify(p[0].0, p[0].1, t) == AnyNumber then 0
    else 1 + StopIndex(p[1..], t)
  }

  /** check_params logs only UnknownParameter and UnknownValue errors. */
  lemma {:induction false} CheckErrorsAreErrors(p: Params, t: Table)
    ensures forall i :: 0 <= i < |CheckErrors(p, t)| ==>
              CheckErrors(p, t)[i] in {Error(UnknownParameter), Error(UnknownValue)}
    ensures StatusOk(CheckErrors(p, t)) <==> CheckErrors(p, t) == []
  {
    if p != [] {
      CheckErrorsAreErrors(p[1..], t);
    }
    if CheckErrors(p, t) != [] {
      assert CheckErrors(p, t)[0].Error?;
    }
  }

  /** Errors accumulate: before the stop, each pair's entries follow the previous ones. */
  lemma {:induction false} CheckErrorsAppend(p: Params, q: Params, t: Table)
    requires forall i :: 0 <= i < |p| ==> Classify(p[i].0, p[i].1, t) != AnyNumber
    ensures CheckErrors(p + q, t) == CheckErrors(p, t) + CheckErrors(q, t)
  {
    if p != [] {
      assert (p + q)[0] == p[0];
      assert (p + q)[1..] == p[1..] + q;
      CheckErrorsAppend(p[1..], q, t);
    } else {
      assert p + q == q;
    }
  }

  /** Nothing after the stopping pair is examined: any continuation gives
      the same entries as the pairs before it. */
  lemma {:induction false} CheckErrorsStop(p: Params, t: Table, q: Params)
    requires StopIndex(p, t) < |p|
    ensures CheckErrors(p[..StopIndex(p, t) + 1] + q, t) == CheckErrors(p[..StopIndex(p, t)], t)
    ensures CheckErrors(p, t) == CheckErrors(p[..StopIndex(p, t)], t)
  {
    var n := StopIndex(p, t);
    var pre := p[..n];
    CheckErrorsAppend(pre, [p[n]] + q, t);
    assert p[..n + 1] + q == pre + ([p[n]] + q);
    CheckErrorsAppend(pre, p[n..], t);
    assert p == pre + p[n..];
    assert p[n..][0] == p[n];
  }

  /** A pair reached before the stop whose key is not permitted is reported.
      Where its error sits in the log follows from CheckErrorsAppend: after
      the errors of the pairs before it. */
  lemma CheckReportsUnknownKey(p: Params, t: Table, i: nat)
    requires i < StopIndex(p, t)
    requires p[i].0 !in t
    ensures Error(UnknownParameter) in CheckErrors(p, t)
  {
    CheckErrorsAppend(p[..i], p[i..], t);
    assert p == p[..i] + p[i..];
    assert p[i..][0] == p[i];
  }

  /** A pair reached before the stop whose value is not permitted is reported,
      after the errors of the pairs before it (CheckErrorsAppend). */
  lemma CheckReportsUnknownValue(p: Params, t: Table, i: nat)
    requires i < StopIndex(p, t)
    requires p[i].0 in t && p[i].1 !in t[p[i].0]
    ensures Error(UnknownValue) in CheckErrors(p, t)
  {
    CheckErrorsAppend(p[..i], p[i..], t);
    assert p == p[..i] + p[i..];
    assert p[i..][0] == p[i];
  }

  /** check_params adds nothing exactly when every pair before the stop is permitted. */
  lemma {:induction false} CheckErrorsEmptyIff(p: Params, t: Table)
    ensures CheckErrors(p, t) == [] <==>
            forall i :: 0 <= i < StopIndex(p, t) ==> Classify(p[i].0, p[i].1, t) == Accepted
  {
    if p != [] {
      CheckErrorsEmptyIff(p[1..], t);
      assert forall i :: 0 <= i < |p[1..]| ==> p[1..][i] == p[i + 1];
    }
  }

  // ---------------------------------------------------------------------------
  // Normalising remove_connected_nodes and converting the threshold

  /** The normaliser's reading of a flag: {'true','True','t'} and
      {'false','False','F'}; anything else is not a flag. */
  function FlagOf(v: Value): Option<bool> {
    if v in {Str("true"), Str("True"), Str("t")} then Some(true)
    else if v in {Str("false"), Str("False"), Str("F")} then Some(false)
    else None
  }

  /** The normaliser's errors and the parameters it leaves. */
  datatype Normalized = Normalized(errors: seq<LogEntry>, params: Params)

  function NormalizeConnected(p: Params): Normalized {
    match Lookup(p, ConnectedKey)
    case None => Normalized([], Assign(p, ConnectedKey, Bool(false)))
    case Some(v) =>
      match FlagOf(v)
      case Some(b) => Normalized([], Assign(p, ConnectedKey, Bool(b)))
      case None => Normalized([Error(UnknownValue)], p)
  }

  /** The normaliser: a missing flag is False, a recognised one becomes a
      Bool, any other present value is an UnknownValue error. */
  lemma NormalizeConnectedSpec(p: Params)
    ensures var n := NormalizeConnected(p);
      && (Lookup(p, ConnectedKey).None? ==> n.errors == [] && Lookup(n.params, ConnectedKey) == Some(Bool(false)))
      && ((Lookup(p, ConnectedKey).Some? && Lookup(p, ConnectedKey).value in {Str("true"), Str("True"), Str("t")})
            ==> n.errors == [] && Lookup(n.params, ConnectedKey) == Some(Bool(true)))
      && ((Lookup(p, ConnectedKey).Some? && Lookup(p, ConnectedKey).value in {Str("false"), Str("False"), Str("F")})
            ==> n.errors == [] && Lookup(n.params, ConnectedKey) == Some(Bool(false)))
      && (n.errors != [] <==> Lookup(p, ConnectedKey).Some? && FlagOf(Lookup(p, ConnectedKey).value).None?)
      && (n.errors != [] ==> n.errors == [Error(UnknownValue)] && n.params == p)
  {
    AssignLookup(p, ConnectedKey, Bool(false), ConnectedKey);
    AssignLookup(p, ConnectedKey, Bool(true), ConnectedKey);
  }

  /** 'f' is a permitted value of the flag but not a flag; 'F' is a flag but not permitted. */
  lemma FlagSpellingMismatch()
    ensures Str("f") in FlagStrings && FlagOf(Str("f")).None?
    ensures Str("F") !in FlagStrings && FlagOf(Str("F")) == Some(false)
  {
  }

  /** The normaliser changes only the flag's entry. */
  lemma NormalizeKeepsOthers(p: Params, k: string)
    requires k != ConnectedKey
    ensures Lookup(NormalizeConnected(p).params, k) == Lookup(p, k)
  {
    AssignLookup(p, ConnectedKey, Bool(false), k);
    AssignLookup(p, ConnectedKey, Bool(true), k);
  }

  /** `float(edge_params['threshold'])`: the exception's name on failure. */
  function ToFloat(v: Option<Value>): Result<real, ErrorCode> {
    match v
    case None => Failure(KeyError)
    case Some(Num(x)) => Success(x)
    case Some(Bool(b)) => Success(if b then 1.0 else 0.0)
    case Some(NoneValue) => Failure(TypeError)
    case Some(Str(s)) =>
      match ParseDecimal(s)
      case Some(x) => Success(x)
      case None => Failure(ValueError)
  }

  /** A threshold spelled without any digit is a ValueError. */
  lemma ThresholdWithoutDigits(s: string)
    requires forall i :: 0 <= i < |s| ==> !IsDigit(s[i])
    ensures ToFloat(Some(Str(s))) == Failure(ValueError)
  {
    ParseDecimalNeedsDigit(s);
  }

  // ---------------------------------------------------------------------------
  // The handlers

  /** A hand-over to RemoveEdges/RemoveNodes: which method, the parameters
      it was given, and whether the response was still OK at that moment. */
  datatype Call = Call(op: Action, params: Params, statusOk: bool)

  /** What a handler does to an OK response: the entries it appends, the
      parameters it leaves, and its hand-over to the collaborator, if any. */
  datatype Outcome = Outcome(log: seq<LogEntry>, params: Params, call: Option<Call>)

  function EdgesByTypeOutcome(m: Option<Message>, p: Params): Outcome
    requires EdgesReadable(m, |p| > 0)
  {
    var errs := CheckErrors(p, EdgesByTypeTable(m, |p| > 0));
    if errs != [] then Outcome(errs, p, None)
    else
      var n := NormalizeConnected(p);
      Outcome(n.errors, n.params, Some(Call(RemoveEdgesByType, n.params, n.errors == [])))
  }

  /** The threshold converted in place, when it converts. */
  function WithThreshold(p: Params): Result<Params, ErrorCode> {
    match ToFloat(Lookup(p, "threshold"))
    case Success(x) => Success(Assign(p, "threshold", Num(x)))
    case Failure(e) => Failure(e)
  }

  /** remove_edges_by_attribute once its threshold has converted: check,
      normalise, require a direction, and hand over only on a clean log. */
  function ConvertedAttributeOutcome(t: Table, p1: Params): Outcome {
    var errs := CheckErrors(p1, t);
    if errs != [] then Outcome(errs, p1, None)
    else
      var n := NormalizeConnected(p1);
      var log := n.errors + (if Lookup(n.params, "direction").None? then [Error(UnknownValue)] else []);
      if log != [] then Outcome(log, n.params, None)
      else Outcome([], n.params, Some(Call(RemoveEdgesByAttribute, n.params, true)))
  }

  function EdgesByAttributeOutcome(m: Option<Message>, p: Params): Outcome {
    match WithThreshold(p)
    case Failure(e) => Outcome([Error(e), Error(Unspecified)], p, None)
    case Success(p1) => ConvertedAttributeOutcome(EdgesByAttributeTable(m, |p| > 0), p1)
  }

  function NodesByTypeOutcome(m: Option<Message>, p: Params): Outcome
    requires NodesReadable(m, |p| > 0)
  {
    var errs := CheckErrors(p, NodesByTypeTable(m, |p| > 0));
    if errs != [] then Outcome(errs, p, None)
    else Outcome([], p, Some(Call(RemoveNodesByType, p, true)))
  }

  /** The hand-over, if any, as a list of calls. */
  function CallList(c: Option<Call>): seq<Call> {
    if c.Some? then [c.value] else []
  }

  function HandlerOutcome(a: Action, m: Option<Message>, p: Params): Outcome
    requires HandlerReadable(a, m, |p| > 0)
  {
    match a
    case RemoveEdgesByType => EdgesByTypeOutcome(m, p)
    case RemoveEdgesByAttribute => EdgesByAttributeOutcome(m, p)
    case RemoveNodesByType => NodesByTypeOutcome(m, p)
  }

  /** The normaliser logs at most one entry, an error. */
  lemma NormalizeStatus(p: Params)
    ensures var n := NormalizeConnected(p); StatusOk(n.errors) <==> n.errors == []
  {
    var n := NormalizeConnected(p);
    if n.errors != [] {
      assert n.errors[0].Error?;
    }
  }

  /** remove_edges_by_type hands over exactly when check_params passed,
      even when the normaliser has just logged an error. */
  lemma EdgesByTypeHandOver(m: Option<Message>, p: Params)
    requires EdgesReadable(m, |p| > 0)
    ensures var o := EdgesByTypeOutcome(m, p);
      && (o.call.Some? <==> CheckErrors(p, EdgesByTypeTable(m, |p| > 0)) == [])
      && (o.call.Some? ==> o.call.value.params == o.params && (o.call.value.statusOk <==> StatusOk(o.log)))
      && (o.call.None? ==> !StatusOk(o.log))
  {
    CheckErrorsAreErrors(p, EdgesByTypeTable(m, |p| > 0));
    NormalizeStatus(p);
  }

  /** The 'f' quirk: the collaborator is reached with an error already logged. */
  lemma EdgesByTypeLowercaseF(m: Option<Message>)
    requires EdgesReadable(m, true)
    ensures var p := [("action", Str("remove_edges_by_type")), (ConnectedKey, Str("f"))];
      var o := EdgesByTypeOutcome(m, p);
      o.log == [Error(UnknownValue)] && o.call == Some(Call(RemoveEdgesByType, p, false))
  {
    var p := [("action", Str("remove_edges_by_type")), (ConnectedKey, Str("f"))];
    var t := EdgesByTypeTable(m, true);
    assert p[1..][1..] == [];
    assert CheckErrors(p[1..], t) == [];
    assert Lookup(p, ConnectedKey) == Some(Str("f"));
  }

  /** remove_edges_by_attribute hands over only with no error logged, and
      then exactly when every step passed. */
  lemma EdgesByAttributeHandOver(m: Option<Message>, p: Params)
    ensures var o := EdgesByAttributeOutcome(m, p);
      && (o.call.Some? ==> o.log == [] && o.call.value == Call(RemoveEdgesByAttribute, o.params, true))
      && (o.call.None? ==> !StatusOk(o.log))
      && (o.call.Some? <==>
            WithThreshold(p).Success?
            && CheckErrors(WithThreshold(p).value, EdgesByAttributeTable(m, |p| > 0)) == []
            && NormalizeConnected(WithThreshold(p).value).errors == []
            && Lookup(p, "direction").Some?)
  {
    var o := EdgesByAttributeOutcome(m, p);
    match WithThreshold(p)
    case Failure(e) =>
      assert o.log[0].Error?;
    case Success(p1) =>
      var x := ToFloat(Lookup(p, "threshold")).value;
      AssignLookup(p, "threshold", Num(x), "direction");
      NormalizeKeepsOthers(p1, "direction");
      CheckErrorsAreErrors(p1, EdgesByAttributeTable(m, |p| > 0));
      var n := NormalizeConnected(p1);
      NormalizeStatus(p1);
      var extra: seq<LogEntry> := if Lookup(n.params, "direction").None? then [Error(UnknownValue)] else [];
      StatusOkAppend(n.errors, extra);
      if extra != [] {
        assert extra[0].Error?;
      }
  }

  /** A missing or unconvertible threshold: its exception name and the
      friendly message are logged, nothing else happens. */
  lemma EdgesByAttributeBadThreshold(m: Option<Message>, p: Params)
    requires ToFloat(Lookup(p, "threshold")).Failure?
    ensures var o := EdgesByAttributeOutcome(m, p);
      o.log == [Error(ToFloat(Lookup(p, "threshold")).error), Error(Unspecified)] && o.params == p && o.call.None?
    ensures Lookup(p, "threshold").None? ==> EdgesByAttributeOutcome(m, p).log == [Error(KeyError), Error(Unspecified)]
  {
  }

  /** After the threshold converted, a missing direction is never handed
      over, and it is reported once check_params passed. */
  lemma ConvertedMissingDirection(t: Table, p1: Params)
    requires Lookup(p1, "direction").None?
    ensures ConvertedAttributeOutcome(t, p1).call.None?
    ensures CheckErrors(p1, t) == [] ==> Error(UnknownValue) in ConvertedAttributeOutcome(t, p1).log
  {
    NormalizeKeepsOthers(p1, "direction");
    var n := NormalizeConnected(p1);
    var log := n.errors + [Error(UnknownValue)];
    assert log[|log| - 1] == Error(UnknownValue);
  }

  /** A missing direction is never handed over, and once the threshold and
      check_params passed it is reported as UnknownValue. */
  lemma EdgesByAttributeMissingDirection(m: Option<Message>, p: Params)
    requires Lookup(p, "direction").None?
    ensures EdgesByAttributeOutcome(m, p).call.None?
    ensures WithThreshold(p).Success? && CheckErrors(WithThreshold(p).value, EdgesByAttributeTable(m, |p| > 0)) == []
            ==> Error(UnknownValue) in EdgesByAttributeOutcome(m, p).log
  {
    match WithThreshold(p)
    case Failure(_) =>
    case Success(p1) =>
      var x := ToFloat(Lookup(p, "threshold")).value;
      AssignLookup(p, "threshold", Num(x), "direction");
      ConvertedMissingDirection(EdgesByAttributeTable(m, |p| > 0), p1);
  }

  /** A table none of whose sets holds a float lets check_params run to the end. */
  lemma NoFloatNoStop(p: Params, t: Table)
    requires NoFloatTable(t)
    ensures StopIndex(p, t) == |p|
  {
    forall j | 0 <= j < |p| ensures Classify(p[j].0, p[j].1, t) != AnyNumber {
      if p[j].0 in t {
        assert !HasFloat(t[p[j].0]);
      }
    }
  }

  /** Every set of the placeholder attribute table holds strings only. */
  lemma PlaceholderTableHasNoFloat()
    ensures NoFloatTable(EdgesByAttributeTableWith(false, {}))
  {
    var t := EdgesByAttributeTableWith(false, {});
    forall k | k in t
      ensures !HasFloat(t[k])
    {
      assert forall v: Value :: v in t[k] ==> v.Str?;
    }
  }

  /** Without a knowledge graph the threshold's placeholder set holds no
      float, so a threshold that converts is always rejected. */
  lemma EdgesByAttributeNeedsGraph(m: Option<Message>, p: Params)
    requires !HasKnowledgeGraph(m)
    requires WithThreshold(p).Success?
    ensures Error(UnknownValue) in EdgesByAttributeOutcome(m, p).log
    ensures EdgesByAttributeOutcome(m, p).call.None?
  {
    var t := EdgesByAttributeTable(m, |p| > 0);
    assert t == EdgesByAttributeTableWith(false, {});
    var x := ToFloat(Lookup(p, "threshold")).value;
    var p1 := WithThreshold(p).value;
    assert Lookup(p1, "threshold") == Some(Num(x)) by {
      AssignLookup(p, "threshold", Num(x), "threshold");
    }
    var i :| 0 <= i < |p1| && p1[i] == ("threshold", Num(x));
    var errs := CheckErrors(p1, t);
    assert Error(UnknownValue) in errs by {
      PlaceholderTableHasNoFloat();
      NoFloatNoStop(p1, t);
      CheckReportsUnknownValue(p1, t, i);
    }
    assert errs != [];
    assert ConvertedAttributeOutcome(t, p1) == Outcome(errs, p1, None);
    assert EdgesByAttributeOutcome(m, p) == ConvertedAttributeOutcome(t, p1);
  }

  /** A non-zero threshold ends check_params with a graph: keys after it,
      even unknown ones, are never examined. */
  lemma ThresholdEndsCheck(m: Option<Message>)
    requires HasKnowledgeGraph(m)
    ensures var p := [("action", Str("remove_edges_by_attribute")), ("threshold", Num(0.5)), ("colour", Str("red"))];
      CheckErrors(p, EdgesByAttributeTable(m, true)) == []
  {
    var p := [("action", Str("remove_edges_by_attribute")), ("threshold", Num(0.5)), ("colour", Str("red"))];
    var t := EdgesByAttributeTable(m, true);
    assert Num(0.0) in t["threshold"];
    assert Classify(p[1].0, p[1].1, t) == AnyNumber;
    assert p[1..][0] == p[1];
  }

  /** Without a graph, remove_edges_by_type rejects a real edge type. */
  lemma EdgesByTypeWithoutGraph(m: Option<Message>, t: string)
    requires !QueryGraphHasEdges(m)
    requires t != "an edge type"
    ensures var o := EdgesByTypeOutcome(m, [("action", Str("remove_edges_by_type")), ("edge_type", Str(t))]);
      o.log == [Error(UnknownValue)] && o.call.None?
  {
    var p := [("action", Str("remove_edges_by_type")), ("edge_type", Str(t))];
    var tb := EdgesByTypeTable(m, true);
    assert tb["edge_type"] == {Str("an edge type")};
    assert !HasFloat(tb["edge_type"]);
    assert Classify(p[0].0, p[0].1, tb) == Accepted;
    assert Classify(p[1].0, p[1].1, tb) == ValueRejected;
    assert p[1..][0] == p[1];
    assert p[1..][1..] == [];
    assert CheckErrors(p[1..], tb) == [Error(UnknownValue)];
  }

  /** With a graph holding the type, remove_edges_by_type hands over with
      the flag defaulted to False and nothing logged. */
  lemma EdgesByTypeWithGraph(m: Option<Message>, t: string)
    requires HasKnowledgeGraph(m) && QueryGraphHasEdges(m)
    requires exists e :: e in m.value.knowledgeGraph.value.edges && e.edgeType == t
    ensures var p := [("action", Str("remove_edges_by_type")), ("edge_type", Str(t))];
      var o := EdgesByTypeOutcome(m, p);
      o.log == [] && o.call == Some(Call(RemoveEdgesByType, p + [(ConnectedKey, Bool(false))], true))
  {
    var p := [("action", Str("remove_edges_by_type")), ("edge_type", Str(t))];
    var tb := EdgesByTypeTable(m, true);
    EdgeTypeTableExact(m, t);
    assert Classify(p[0].0, p[0].1, tb) == Accepted;
    assert Classify(p[1].0, p[1].1, tb) == Accepted;
    assert p[1..][0] == p[1];
    assert p[1..][1..] == [];
    assert CheckErrors(p[1..], tb) == [];
    assert CheckErrors(p, tb) == [];
    assert Keys(p) == ["action", "edge_type"];
    assert ConnectedKey !in Keys(p);
    AssignFreshAppends(p, ConnectedKey, Bool(false));
  }

  /** remove_nodes_by_type hands over exactly when check_params passed. */
  lemma NodesByTypeHandOver(m: Option<Message>, p: Params)
    requires NodesReadable(m, |p| > 0)
    ensures var o := NodesByTypeOutcome(m, p);
      && o.params == p
      && (o.call.Some? <==> StatusOk(o.log))
      && (o.call.Some? ==> o.log == [] && o.call.value == Call(RemoveNodesByType, p, true))
  {
    CheckErrorsAreErrors(p, NodesByTypeTable(m, |p| > 0));
  }

}
