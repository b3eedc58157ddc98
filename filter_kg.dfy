/**
  The ARAXFilterKG engine: `apply` validates its arguments, copies the
  parameters, and dispatches to one of three handlers that check the
  parameters against a table built from the current knowledge graph,
  rewrite them in place and hand over to the removal collaborator. Each
  method's new state is tied to the functions of module FilterKGSpec.
 */
module FilterKG {
  import opened Wrappers
  import opened OrderedDict
  import opened FilterKGSpec

  /** A parameter dict that is updated in place and may be shared. */
  class ParamDict {
    var items: Params

    constructor ()
      ensures items == []
    {
      items := [];
    }

    /** `d[k] = v` */
    method Set(k: string, v: Value)
      modifies this
      ensures items == Assign(old(items), k, v)
      ensures DistinctKeys(old(items)) ==> DistinctKeys(items)
    {
      if DistinctKeys(items) {
        AssignDistinct(items, k, v);
      }
      items := Assign(items, k, v);
    }
  }

  /** The Response object as far as the filter relies on it: an ordered log
      whose status is OK until an error is logged, and the
      `data['parameters']` slot. */
  class Response {
    var log: seq<LogEntry>
    var dataParameters: ParamDict?

    constructor ()
      ensures log == [] && dataParameters == null
    {
      log := [];
      dataParameters := null;
    }

    /** `status == 'OK'` */
    predicate IsOk()
      reads this
    {
      StatusOk(log)
    }

    /** `error(..., error_code=code)` */
    method LogError(code: ErrorCode)
      modifies this`log
      ensures log == old(log) + [LogEntry.Error(code)]
      ensures !IsOk()
    {
      log := log + [LogEntry.Error(code)];
      assert log[|log| - 1].Error?;
    }

    /** `debug(...)` */
    method LogDebug()
      modifies this`log
      ensures log == old(log) + [Debug]
    {
      log := log + [Debug];
    }
  }

  /** The argument `input_parameters`: a dict or any other value. */
  datatype Input = Dict(items: Params) | NotDict

  /** `parameters = dict(); for key, value in items: parameters[key] = value` */
  method CopyDict(items: Params) returns (copy: ParamDict)
    requires DistinctKeys(items)
    ensures fresh(copy) && copy.items == items
  {
    copy := new ParamDict();
    var i := 0;
    while i < |items|
      invariant 0 <= i <= |items|
      invariant copy.items == items[..i]
      modifies copy
    {
      var (key, value) := items[i];
      assert Keys(items[..i]) == Keys(items)[..i];
      assert key !in Keys(items[..i]);
      AssignFreshAppends(copy.items, key, value);
      assert items[..i + 1] == items[..i] + [(key, value)];
      copy.Set(key, value);
      i := i + 1;
    }
    assert items[..|items|] == items;
  }

  /** The attribute names over all edges, collected as the handler does. */
  method CollectAttributeNames(edges: seq<Edge>) returns (known: set<string>)
    ensures known == AttributeNames(edges)
  {
    known := {};
    var i := 0;
    while i < |edges|
      invariant 0 <= i <= |edges|
      invariant known == AttributeNames(edges[..i])
    {
      var edge := edges[i];
      assert edges[..i + 1][..i] == edges[..i];
      if edge.attributes.Some? {
        var attrs := edge.attributes.value;
        var j := 0;
        while j < |attrs|
          invariant 0 <= j <= |attrs|
          invariant known == AttributeNames(edges[..i]) + Names(attrs[..j])
        {
          assert attrs[..j + 1][..j] == attrs[..j];
          known := known + {attrs[j].name};
          j := j + 1;
        }
        assert attrs[..|attrs|] == attrs;
      }
      i := i + 1;
    }
    assert edges[..|edges|] == edges;
  }

  class ARAXFilterKG {
    var response: Response?
    var message: Option<Message>
    var parameters: ParamDict?
    /** The hand-overs to RemoveEdges/RemoveNodes so far. */
    ghost var calls: seq<Call>
    const allowableActions: set<string> := AllowableActions

    constructor ()
      ensures response == null && message == None && parameters == null
      ensures calls == []
    {
      response := null;
      message := None;
      parameters := null;
      calls := [];
    }

    /** `self.parameters` is truthy: present and not empty. */
    predicate ParamsTruthy()
      reads this, parameters
    {
      parameters != null && |parameters.items| > 0
    }

    /** The response, when there is one. */
    function ResponseFrame(): set<Response>
      reads this
    {
      if response == null then {} else {response}
    }

    /** check_params: one error per unknown key or rejected value, in order,
        ending early at a rejected value whose set holds a float. */
    method CheckParams(allowable: Table)
      requires response != null && parameters != null
      modifies response`log
      ensures response.log == old(response.log) + CheckErrors(parameters.items, allowable)
    {
      var items := parameters.items;
      var i := 0;
      while i < |items|
        invariant 0 <= i <= |items|
        invariant response.log + CheckErrors(items[i..], allowable) == old(response.log) + CheckErrors(items, allowable)
      {
        var (key, item) := items[i];
        assert items[i..][0] == items[i] && items[i..][1..] == items[i + 1..];
        if key !in allowable {
          response.LogError(UnknownParameter);
        } else if item !in allowable[key] {
          if HasFloat(allowable[key]) {
            return;
          } else {
            response.LogError(UnknownValue);
          }
        }
        i := i + 1;
      }
    }

    /** The remove_connected_nodes normaliser. */
    method NormalizeConnectedNodes()
      requires response != null && parameters != null
      modifies parameters, response`log
      ensures var n := NormalizeConnected(old(parameters.items));
        parameters.items == n.params && response.log == old(response.log) + n.errors
    {
      var value := Lookup(parameters.items, ConnectedKey);
      if value.Some? {
        var flag := FlagOf(value.value);
        if flag.Some? {
          parameters.Set(ConnectedKey, Bool(flag.value));
        } else {
          response.LogError(UnknownValue);
        }
      } else {
        parameters.Set(ConnectedKey, Bool(false));
      }
    }

    /** `edge_params['threshold'] = float(edge_params['threshold'])`, with
        the exception logged by its name and a second, friendly error. */
    method ConvertThreshold()
      requires response != null && parameters != null
      modifies parameters, response`log
      ensures match WithThreshold(old(parameters.items))
        case Success(p1) => parameters.items == p1 && response.log == old(response.log)
        case Failure(e) => parameters.items == old(parameters.items)
                           && response.log == old(response.log) + [LogEntry.Error(e), LogEntry.Error(Unspecified)]
    {
      match ToFloat(Lookup(parameters.items, "threshold"))
      case Success(x) =>
        parameters.Set("threshold", Num(x));
      case Failure(e) =>
        response.LogError(e);
        response.LogError(Unspecified);
    }

    /** A missing direction is an UnknownValue error. */
    method RequireDirection()
      requires response != null && parameters != null
      modifies response`log
      ensures response.log == old(response.log) +
        (if Lookup(parameters.items, "direction").None? then [LogEntry.Error(UnknownValue)] else [])
    {
      if Lookup(parameters.items, "direction").None? {
        response.LogError(UnknownValue);
      }
    }

    /** The opaque call into RemoveEdges/RemoveNodes, recorded with the
        parameters it receives and the response status at that moment. */
    method HandOver(op: Action)
      requires response != null && parameters != null
      modifies this`calls
      ensures calls == old(calls) + [Call(op, parameters.items, StatusOk(response.log))]
    {
      calls := calls + [Call(op, parameters.items, StatusOk(response.log))];
    }

    method RemoveEdgesByType(describe: bool) returns (described: Option<Table>)
      requires EdgesReadable(message, ParamsTruthy())
      requires !describe ==> response != null && parameters != null && StatusOk(response.log)
      modifies this`calls, ResponseFrame()`log, parameters
      ensures describe ==> described == Some(EdgesByTypeTable(message, old(ParamsTruthy())))
                           && calls == old(calls)
                           && (response != null ==> unchanged(response))
                           && (parameters != null ==> unchanged(parameters))
      ensures !describe ==>
        var o := EdgesByTypeOutcome(message, old(parameters.items));
        && described == None
        && response.log == old(response.log) + o.log
        && parameters.items == o.params
        && calls == old(calls) + CallList(o.call)
    {
      var allowable := EdgesByTypeTable(message, ParamsTruthy());
      if describe {
        return Some(allowable);
      }
      ghost var p := parameters.items;
      ghost var log0 := response.log;
      CheckParams(allowable);
      CheckErrorsAreErrors(p, allowable);
      StatusOkAppend(log0, CheckErrors(p, allowable));
      if !response.IsOk() {
        return None;
      }
      NormalizeConnectedNodes();
      NormalizeStatus(p);
      StatusOkAppend(log0, NormalizeConnected(p).errors);
      HandOver(Action.RemoveEdgesByType);
      return None;
    }

    /** The allowable parameters of remove_edges_by_attribute, reading the
        attribute names off the knowledge graph when there is one. */
    method EdgesByAttributeAllowable() returns (allowable: Table)
      ensures allowable == EdgesByAttributeTable(message, ParamsTruthy())
    {
      if ParamsTruthy() && message.Some? && message.value.knowledgeGraph.Some? {
        var known := CollectAttributeNames(message.value.knowledgeGraph.value.edges);
        allowable := EdgesByAttributeTableWith(true, known);
      } else {
        allowable := EdgesByAttributeTableWith(false, {});
      }
    }

    method RemoveEdgesByAttribute(describe: bool) returns (described: Option<Table>)
      requires !describe ==> response != null && parameters != null && StatusOk(response.log)
      modifies this`calls, ResponseFrame()`log, parameters
      ensures describe ==> described == Some(EdgesByAttributeTable(message, old(ParamsTruthy())))
                           && calls == old(calls)
                           && (response != null ==> unchanged(response))
                           && (parameters != null ==> unchanged(parameters))
      ensures !describe ==>
        var o := EdgesByAttributeOutcome(message, old(parameters.items));
        && described == None
        && response.log == old(response.log) + o.log
        && parameters.items == o.params
        && calls == old(calls) + CallList(o.call)
    {
      var allowable := EdgesByAttributeAllowable();
      if describe {
        return Some(allowable);
      }
      ghost var p := parameters.items;
      ghost var log0 := response.log;
      assert allowable == EdgesByAttributeTable(message, |p| > 0);
      ConvertThreshold();
      if WithThreshold(p).Failure? {
        assert response.log[|log0|] == LogEntry.Error(WithThreshold(p).error);
      }
      if !response.IsOk() {
        return None;
      }
      assert parameters.items == WithThreshold(p).value;
      CheckConvertedParams(allowable);
      return None;
    }

    /** The part of remove_edges_by_attribute after the threshold has converted. */
    method CheckConvertedParams(allowable: Table)
      requires response != null && parameters != null && StatusOk(response.log)
      modifies this`calls, ResponseFrame()`log, parameters
      ensures var o := ConvertedAttributeOutcome(allowable, old(parameters.items));
        && response.log == old(response.log) + o.log
        && parameters.items == o.params
        && calls == old(calls) + CallList(o.call)
    {
      ghost var log0 := response.log;
      ghost var p1 := parameters.items;
      CheckParams(allowable);
      ghost var errs := CheckErrors(p1, allowable);
      assert response.IsOk() <==> errs == [] by {
        CheckErrorsAreErrors(p1, allowable);
        StatusOkAppend(log0, errs);
      }
      if !response.IsOk() {
        return;
      }
      NormalizeConnectedNodes();
      ghost var n := NormalizeConnected(p1);
      RequireDirection();
      ghost var log := n.errors + (if Lookup(n.params, "direction").None? then [LogEntry.Error(UnknownValue)] else []);
      assert response.log == log0 + log;
      assert response.IsOk() <==> log == [] by {
        if log != [] {
          assert log[0].Error?;
          assert response.log[|log0|] == log[0];
        }
      }
      if !response.IsOk() {
        return;
      }
      HandOver(Action.RemoveEdgesByAttribute);
    }

    method RemoveNodesByType(describe: bool) returns (described: Option<Table>)
      requires NodesReadable(message, ParamsTruthy())
      requires !describe ==> response != null && parameters != null && StatusOk(response.log)
      modifies this`calls, ResponseFrame()`log, parameters
      ensures describe ==> described == Some(NodesByTypeTable(message, old(ParamsTruthy())))
                           && calls == old(calls)
                           && (response != null ==> unchanged(response))
                           && (parameters != null ==> unchanged(parameters))
      ensures !describe ==>
        var o := NodesByTypeOutcome(message, old(parameters.items));
        && described == None
        && response.log == old(response.log) + o.log
        && parameters.items == o.params
        && calls == old(calls) + CallList(o.call)
    {
      var allowable := NodesByTypeTable(message, ParamsTruthy());
      if describe {
        return Some(allowable);
      }
      ghost var p := parameters.items;
      ghost var log0 := response.log;
      CheckParams(allowable);
      CheckErrorsAreErrors(p, allowable);
      StatusOkAppend(log0, CheckErrors(p, allowable));
      if !response.IsOk() {
        return None;
      }
      HandOver(Action.RemoveNodesByType);
      return None;
    }

    /** `getattr(self, action)()`: run the handler the action names. */
    method Dispatch(a: Action)
      requires response != null && parameters != null && StatusOk(response.log)
      requires HandlerReadable(a, message, |parameters.items| > 0)
      modifies this`calls, ResponseFrame()`log, parameters
      ensures var o := HandlerOutcome(a, message, old(parameters.items));
        && response.log == old(response.log) + o.log
        && parameters.items == o.params
        && calls == old(calls) + CallList(o.call)
    {
      var described;
      match a
      case RemoveEdgesByType =>
        described := RemoveEdgesByType(false);
      case RemoveEdgesByAttribute =>
        described := RemoveEdgesByAttribute(false);
      case RemoveNodesByType =>
        described := RemoveNodesByType(false);
    }

    /** Top-level entry point: validate, copy and store the parameters,
        dispatch on the action, and log a debug entry. */
    method Apply(inputMessage: Option<Message>, input: Input) returns (r: Response)
      requires input.Dict? ==> DistinctKeys(input.items)
      requires input.Dict? && Lookup(input.items, "action").Some?
               && ParseAction(Lookup(input.items, "action").value).Some? ==>
        HandlerReadable(ParseAction(Lookup(input.items, "action").value).value, inputMessage, |input.items| > 0)
      modifies this
      ensures fresh(r) && response == r && message == inputMessage
      ensures input.NotDict? ==>
        r.log == [LogEntry.Error(ParametersNotDict)] && r.dataParameters == null
        && parameters == old(parameters) && calls == old(calls)
      ensures input.Dict? && Lookup(input.items, "action").None? ==>
        r.log == [LogEntry.Error(MissingAction)] && r.dataParameters == null
        && parameters == old(parameters) && calls == old(calls)
      ensures input.Dict? && Lookup(input.items, "action").Some?
              && ParseAction(Lookup(input.items, "action").value).None? ==>
        r.log == [LogEntry.Error(UnknownAction)] && r.dataParameters == null
        && parameters == old(parameters) && calls == old(calls)
      ensures input.Dict? && Lookup(input.items, "action").Some?
              && ParseAction(Lookup(input.items, "action").value).Some? ==>
        var o := HandlerOutcome(ParseAction(Lookup(input.items, "action").value).value, inputMessage, input.items);
        && fresh(parameters) && r.dataParameters == parameters
        && parameters.items == o.params
        && r.log == o.log + [Debug]
        && calls == old(calls) + CallList(o.call)
    {
      r := new Response();
      response := r;
      message := inputMessage;

      if input.NotDict? {
        r.LogError(ParametersNotDict);
        return;
      }

      var action := Lookup(input.items, "action");
      if action.None? {
        r.LogError(MissingAction);
      } else if !(action.value.Str? && action.value.s in allowableActions) {
        r.LogError(UnknownAction);
      }
      if !r.IsOk() {
        return;
      }

      var items := input.items;
      var copy := CopyDict(items);

      r.dataParameters := copy;
      parameters := copy;

      ghost var o := HandlerOutcome(ParseAction(action.value).value, inputMessage, items);
      Dispatch(ParseAction(action.value).value);
      assert r.log == o.log;
      r.LogDebug();
    }
  }
}
