/**
  The in-memory parts of SemMedInterface: the inverted CUI index built
  from the node/CUI map file, the CUI-to-node lookup, the SQL text that
  get_node_info sends (validation, clause building and the
  SUBJECT/OBJECT swap), and the id rewriting and UMLS extraction of
  get_cui_from_oxo. Databases and HTTP services are parameters.
 */
module SemMedInterface {
  import opened Wrappers
  import opened Strings
  import opened OrderedDict

  // ---------------------------------------------------------------------------
  // The node/CUI map file and its inverted index

  /** One line of the map file: a node id, its name, and its CUIs. */
  datatype Row = Row(id: string, name: string, cuis: seq<string>)

  /** The outcome of reading the map file. A row's `name` means something
      only when the file has a `name` column. */
  datatype MapFile = FileNotFound | Loaded(columns: set<string>, rows: seq<Row>)

  /** pandas' KeyError for a column the map file does not have. */
  datatype NodeError = KeyError

  /** `id` once for every occurrence of `c` in `cuis`, in order. */
  function Hits(cuis: seq<string>, c: string, id: string): seq<string> {
    if cuis == [] then []
    else Hits(cuis[..|cuis| - 1], c, id) + (if cuis[|cuis| - 1] == c then [id] else [])
  }

  /** The ids the index lists for `c`: row by row, one per occurrence. */
  function IdsFor(rows: seq<Row>, c: string): seq<string> {
    if rows == [] then []
    else
      var last := rows[|rows| - 1];
      IdsFor(rows[..|rows| - 1], c) + Hits(last.cuis, c, last.id)
  }

  /** Every CUI some row lists. */
  function AllCuis(rows: seq<Row>): set<string> {
    set i, j | 0 <= i < |rows| && 0 <= j < |rows[i].cuis| :: rows[i].cuis[j]
  }

  /** The ids `Hits` yields are `id`, and there is one exactly when `c` occurs. */
  lemma {:induction false} HitsSpec(cuis: seq<string>, c: string, id: string)
    ensures forall x :: x in Hits(cuis, c, id) ==> x == id
    ensures Hits(cuis, c, id) != [] <==> c in cuis
  {
    if cuis != [] {
      var init := cuis[..|cuis| - 1];
      HitsSpec(init, c, id);
      assert cuis == init + [cuis[|cuis| - 1]];
    }
  }

  /** An id is listed for `c` exactly when some row with that id lists `c`. */
  lemma {:induction false} IdsForMembers(rows: seq<Row>, c: string)
    ensures forall x :: x in IdsFor(rows, c) <==>
      exists i :: 0 <= i < |rows| && rows[i].id == x && c in rows[i].cuis
  {
    if rows != [] {
      var init := rows[..|rows| - 1];
      var last := rows[|rows| - 1];
      IdsForMembers(init, c);
      HitsSpec(last.cuis, c, last.id);
      forall x | x in IdsFor(rows, c)
        ensures exists i :: 0 <= i < |rows| && rows[i].id == x && c in rows[i].cuis
      {
        if x in IdsFor(init, c) {
          var i :| 0 <= i < |init| && init[i].id == x && c in init[i].cuis;
          assert rows[i] == init[i];
        } else {
          assert rows[|rows| - 1].id == x && c in rows[|rows| - 1].cuis;
        }
      }
      forall x, i | 0 <= i < |rows| && rows[i].id == x && c in rows[i].cuis
        ensures x in IdsFor(rows, c)
      {
        if i < |init| {
          assert init[i] == rows[i];
        } else {
          assert rows[i] == last;
          assert Hits(last.cuis, c, last.id)[0] in Hits(last.cuis, c, last.id);
        }
      }
    }
  }

  /** The index has an entry for `c` exactly when some row lists `c`. */
  lemma IdsForEmpty(rows: seq<Row>, c: string)
    ensures IdsFor(rows, c) != [] <==> c in AllCuis(rows)
  {
    IdsForMembers(rows, c);
    if c in AllCuis(rows) {
      var i, j :| 0 <= i < |rows| && 0 <= j < |rows[i].cuis| && rows[i].cuis[j] == c;
      assert rows[i].id in IdsFor(rows, c);
    }
    if IdsFor(rows, c) != [] {
      var x := IdsFor(rows, c)[0];
      assert x in IdsFor(rows, c);
      var i :| 0 <= i < |rows| && rows[i].id == x && c in rows[i].cuis;
      var j :| 0 <= j < |rows[i].cuis| && rows[i].cuis[j] == c;
      assert rows[i].cuis[j] in AllCuis(rows);
    }
  }

  lemma HitsSnoc(cuis: seq<string>, j: nat, c: string, id: string)
    requires j < |cuis|
    ensures Hits(cuis[..j + 1], c, id) == Hits(cuis[..j], c, id) + (if cuis[j] == c then [id] else [])
  {
    assert cuis[..j + 1][..j] == cuis[..j];
  }

  lemma IdsForSnoc(rows: seq<Row>, i: nat, c: string)
    requires i < |rows|
    ensures IdsFor(rows[..i + 1], c) == IdsFor(rows[..i], c) + Hits(rows[i].cuis, c, rows[i].id)
  {
    assert rows[..i + 1][..i] == rows[..i];
  }

  /** Every id listed in `d` is the id of some row. */
  ghost predicate IdsHaveRows(d: map<string, seq<string>>, rows: seq<Row>) {
    forall c, k :: c in d && 0 <= k < |d[c]| ==>
      exists i :: 0 <= i < |rows| && rows[i].id == d[c][k]
  }

  /** The index built from a file lists only ids of the file's rows. */
  lemma IndexIdsHaveRows(d: map<string, seq<string>>, rows: seq<Row>)
    requires forall c :: c in d ==> d[c] == IdsFor(rows, c)
    ensures IdsHaveRows(d, rows)
  {
    forall c, k | c in d && 0 <= k < |d[c]|
      ensures exists i :: 0 <= i < |rows| && rows[i].id == d[c][k]
    {
      IdsForMembers(rows, c);
      assert d[c][k] in IdsFor(rows, c);
    }
  }

  /** The ids listed for `c`, or none. */
  function ListedIds(d: map<string, seq<string>>, c: string): seq<string> {
    if c in d then d[c] else []
  }

  /** One turn of the inner loop of `__init__`, for one CUI `c`: appending
      the id to the list of the next CUI extends `c`'s list exactly by
      `c`'s new hit, if any. */
  lemma AddRowStepAt(l0: seq<string>, before: map<string, seq<string>>, d: map<string, seq<string>>,
                     cuis: seq<string>, j: nat, id: string, c: string)
    requires j < |cuis|
    requires ListedIds(before, c) == l0 + Hits(cuis[..j], c, id)
    requires d == before[cuis[j] := ListedIds(before, cuis[j]) + [id]]
    ensures ListedIds(d, c) == l0 + Hits(cuis[..j + 1], c, id)
  {
    var h := Hits(cuis[..j], c, id);
    HitsSnoc(cuis, j, c, id);
    if c == cuis[j] {
      assert ListedIds(d, c) == (l0 + h) + [id];
      assert (l0 + h) + [id] == l0 + (h + [id]);
    } else {
      assert ListedIds(d, c) == ListedIds(before, c);
      assert h + [] == h;
    }
  }

  /** One turn of the inner loop of `__init__`, for all CUIs at once. */
  lemma AddRowStep(d0: map<string, seq<string>>, before: map<string, seq<string>>, d: map<string, seq<string>>,
                   cuis: seq<string>, j: nat, id: string)
    requires j < |cuis|
    requires forall c {:trigger ListedIds(before, c)} :: ListedIds(before, c) == ListedIds(d0, c) + Hits(cuis[..j], c, id)
    requires d == before[cuis[j] := ListedIds(before, cuis[j]) + [id]]
    requires forall c :: c in before ==> before[c] != []
    ensures forall c {:trigger ListedIds(d, c)} :: ListedIds(d, c) == ListedIds(d0, c) + Hits(cuis[..j + 1], c, id)
    ensures forall c :: c in d ==> d[c] != []
  {
    forall c
      ensures ListedIds(d, c) == ListedIds(d0, c) + Hits(cuis[..j + 1], c, id)
    {
      AddRowStepAt(ListedIds(d0, c), before, d, cuis, j, id, c);
    }
  }

  /** The inner loop of `__init__`: the row's id is appended to the list
      of each of its CUIs, once per occurrence. */
  method AddRow(d0: map<string, seq<string>>, row: Row) returns (d: map<string, seq<string>>)
    requires forall c :: c in d0 ==> d0[c] != []
    ensures forall c :: c in d ==> d[c] != []
    ensures forall c {:trigger ListedIds(d, c)} :: ListedIds(d, c) == ListedIds(d0, c) + Hits(row.cuis, c, row.id)
  {
    d := d0;
    var j := 0;
    while j < |row.cuis|
      invariant 0 <= j <= |row.cuis|
      invariant forall c :: c in d ==> d[c] != []
      invariant forall c {:trigger ListedIds(d, c)} :: ListedIds(d, c) == ListedIds(d0, c) + Hits(row.cuis[..j], c, row.id)
    {
      var cui := row.cuis[j];
      ghost var before := d;
      if cui in d {
        d := d[cui := d[cui] + [row.id]];
      } else {
        d := d[cui := [row.id]];
        assert [row.id] == ListedIds(before, cui) + [row.id];
      }
      AddRowStep(d0, before, d, row.cuis, j, row.id);
      j := j + 1;
    }
    assert row.cuis[..|row.cuis|] == row.cuis;
  }

  /** The index of `__init__`: for every CUI of every row, in file order,
      the row's id is appended to that CUI's list. */
  method BuildCuiDict(rows: seq<Row>) returns (d: map<string, seq<string>>)
    ensures d.Keys == AllCuis(rows)
    ensures forall c :: c in d ==> d[c] == IdsFor(rows, c)
  {
    d := map[];
    var i := 0;
    while i < |rows|
      invariant 0 <= i <= |rows|
      invariant forall c :: c in d ==> d[c] != []
      invariant forall c {:trigger ListedIds(d, c)} :: ListedIds(d, c) == IdsFor(rows[..i], c)
    {
      ghost var before := d;
      d := AddRow(d, rows[i]);
      forall c
        ensures ListedIds(d, c) == IdsFor(rows[..i + 1], c)
      {
        assert ListedIds(before, c) == IdsFor(rows[..i], c);
        IdsForSnoc(rows, i, c);
      }
      i := i + 1;
    }
    assert rows[..|rows|] == rows;
    forall c
      ensures (c in d <==> c in AllCuis(rows)) && (c in d ==> d[c] == IdsFor(rows, c))
    {
      assert ListedIds(d, c) == IdsFor(rows, c);
      IdsForEmpty(rows, c);
    }
  }

  /** The first row carrying `id`, as `map_df.loc[map_df['id'] == id].iloc[0]` finds it. */
  function FirstRowWith(rows: seq<Row>, id: string): (r: Option<nat>)
    ensures r.Some? ==> r.value < |rows| && rows[r.value].id == id
                        && forall k :: 0 <= k < r.value ==> rows[k].id != id
    ensures r.None? ==> forall k :: 0 <= k < |rows| ==> rows[k].id != id
  {
    if rows == [] then None
    else if rows[0].id == id then Some(0)
    else match FirstRowWith(rows[1..], id)
      case None => None
      case Some(k) => Some(k + 1)
  }

  // ---------------------------------------------------------------------------
  // The interface object

  class SemMedInterface {
    var cuiDict: map<string, seq<string>>
    var mapRows: seq<Row>
    var hasNames: bool

    /** Every id the index lists belongs to a row of the map. */
    ghost predicate Valid()
      reads this
    {
      IdsHaveRows(cuiDict, mapRows)
    }

    /** `__init__` with the map file already read: the index is built only
        when the file exists and has both an `id` and a `cuis` column. */
    constructor (file: MapFile)
      ensures Valid()
      ensures file.Loaded? && "cuis" in file.columns && "id" in file.columns ==>
        && mapRows == file.rows
        && hasNames == ("name" in file.columns)
        && cuiDict.Keys == AllCuis(file.rows)
        && forall c :: c in cuiDict ==> cuiDict[c] == IdsFor(file.rows, c)
      ensures !(file.Loaded? && "cuis" in file.columns && "id" in file.columns) ==>
        cuiDict == map[] && mapRows == [] && !hasNames
    {
      if file.Loaded? && "cuis" in file.columns && "id" in file.columns {
        var d := BuildCuiDict(file.rows);
        cuiDict := d;
        mapRows := file.rows;
        hasNames := "name" in file.columns;
        IndexIdsHaveRows(d, file.rows);
      } else {
        cuiDict := map[];
        mapRows := [];
        hasNames := false;
      }
    }

    /** get_node_from_cui: the ids listed for the CUI, or their names
        (the first map row with each id), or None for an unknown CUI; asking
        for a name in a map without a `name` column is a KeyError. */
    method GetNodeFromCui(cui: string, nameFlag: bool) returns (r: Result<Option<seq<string>>, NodeError>)
      requires Valid()
      ensures r == Success(None) <==> cui !in cuiDict
      ensures r.Failure? <==> cui in cuiDict && nameFlag && !hasNames && |cuiDict[cui]| > 0
      ensures cui in cuiDict && !nameFlag ==> r == Success(Some(cuiDict[cui]))
      ensures cui in cuiDict && nameFlag && r.Success? ==>
        && r.value.Some? && |r.value.value| == |cuiDict[cui]|
        && forall k :: 0 <= k < |r.value.value| ==>
             FirstRowWith(mapRows, cuiDict[cui][k]).Some?
             && r.value.value[k] == mapRows[FirstRowWith(mapRows, cuiDict[cui][k]).value].name
    {
      if cui !in cuiDict {
        return Success(None);
      }
      var curieIds := cuiDict[cui];
      if !nameFlag {
        return Success(Some(curieIds));
      }
      var names := [];
      var k := 0;
      while k < |curieIds|
        invariant 0 <= k <= |curieIds|
        invariant |names| == k
        invariant !hasNames ==> k == 0
        invariant forall m :: 0 <= m < k ==>
          FirstRowWith(mapRows, curieIds[m]).Some?
          && names[m] == mapRows[FirstRowWith(mapRows, curieIds[m]).value].name
      {
        if !hasNames {
          return Failure(KeyError);
        }
        var row := FirstRowWith(mapRows, curieIds[k]);
        names := names + [mapRows[row.value].name];
        k := k + 1;
      }
      return Success(Some(names));
    }
  }

  // ---------------------------------------------------------------------------
  // get_node_info: the SQL it sends

  /** The fields a constraint or an output may name. */
  const Fields: set<string> :=
    {"PMID", "SUBJECT_CUI", "SUBJECT_NAME", "SUBJECT_SEMTYPE",
     "OBJECT_CUI", "OBJECT_NAME", "OBJECT_SEMTYPE", "PREDICATE"}

  /** `{x.upper(): v for x, v in constraints.items()}`: a later key that
      upper-cases to an earlier one overwrites its value in place. */
  function UpperKeys(c: Dict<string, string>): (r: Dict<string, string>)
    ensures forall k :: k in Keys(r) <==> exists i :: 0 <= i < |c| && Upper(c[i].0) == k
  {
    if c == [] then []
    else
      var init := c[..|c| - 1];
      var r := Assign(UpperKeys(init), Upper(c[|c| - 1].0), c[|c| - 1].1);
      assert forall i :: 0 <= i < |init| ==> init[i] == c[i];
      r
  }

  /** Each upper-cased key holds the value of the last constraint that
      upper-cases to it. */
  lemma {:induction false} UpperKeysLastWins(c: Dict<string, string>, i: nat)
    requires i < |c|
    requires forall j :: i < j < |c| ==> Upper(c[j].0) != Upper(c[i].0)
    ensures Lookup(UpperKeys(c), Upper(c[i].0)) == Some(c[i].1)
  {
    var init := c[..|c| - 1];
    var k := Upper(c[i].0);
    AssignLookup(UpperKeys(init), Upper(c[|c| - 1].0), c[|c| - 1].1, k);
    if i < |c| - 1 {
      assert init[i] == c[i];
      forall j | i < j < |init| ensures Upper(init[j].0) != Upper(init[i].0) {
        assert init[j] == c[j];
      }
      UpperKeysLastWins(init, i);
    }
  }

  /** `[x.upper() for x in output]` */
  function UpperAll(output: seq<string>): seq<string>
  {
    seq(|output|, i requires 0 <= i < |output| => Upper(output[i]))
  }

  /** The set of a sequence's elements. */
  function Elements(s: seq<string>): set<string> {
    set x | x in s
  }

  /** One equality condition, with the value's single quotes removed. */
  function Clause(key: string, value: string): string {
    key + " = '" + ReplaceAll(value, "'", "") + "'"
  }

  function Clauses(c: Dict<string, string>): seq<string>
  {
    seq(|c|, i requires 0 <= i < |c| => Clause(c[i].0, c[i].1))
  }

  /** A clause quotes its value with every quote taken out, so nothing in
      the value can close the quote early; every other character is kept. */
  lemma ClauseQuoting(key: string, value: string)
    ensures Clause(key, value) == key + " = '" + Without(value, '\'') + "'"
    ensures '\'' !in Without(value, '\'')
    ensures forall x :: x in value && x != '\'' ==> x in Without(value, '\'')
  {
    ReplaceAllDeletesChar(value, '\'');
  }

  /** What one turn of the clause loop appends. */
  function Piece(key: string, value: string): string {
    key + " = '" + ReplaceAll(value, "'", "") + "' and "
  }

  /** The text the clause loop appends: every clause followed by " and ". */
  function ConditionText(c: Dict<string, string>): string {
    if c == [] then ""
    else ConditionText(c[..|c| - 1]) + Piece(c[|c| - 1].0, c[|c| - 1].1)
  }

  /** The start of every query. */
  function QueryHead(output: seq<string>): string {
    "select distinct " + Join(output, ", ") + " from SPLIT_PREDICATION where "
  }

  /** A join followed by its separator grows by one piece at a time. */
  lemma JoinSnoc(ts: seq<string>, t: string, sep: string)
    requires |ts| >= 1
    ensures Join(ts + [t], sep) == Join(ts, sep) + sep + t
    decreases |ts|
  {
    if |ts| == 1 {
      assert (ts + [t])[1..] == [t];
    } else {
      assert (ts + [t])[1..] == ts[1..] + [t];
      JoinSnoc(ts[1..], t, sep);
    }
  }

  /** The appended text is the clauses joined by " and ", plus one " and ". */
  lemma {:induction false} ConditionTextJoin(c: Dict<string, string>)
    requires |c| > 0
    ensures ConditionText(c) == Join(Clauses(c), " and ") + " and "
  {
    var init := c[..|c| - 1];
    var k := c[|c| - 1].0;
    assert Piece(k, c[|c| - 1].1) == Clause(k, c[|c| - 1].1) + " and " by {
      assert "' and " == "'" + " and ";
    }
    if |init| == 0 {
      assert Clauses(c) == [Clause(c[0].0, c[0].1)];
    } else {
      ConditionTextJoin(init);
      assert Clauses(c) == Clauses(init) + [Clause(c[|c| - 1].0, c[|c| - 1].1)];
      JoinSnoc(Clauses(init), Clause(c[|c| - 1].0, c[|c| - 1].1), " and ");
    }
  }

  /** The query loop, then `query[:-5]`. */
  method BuildQuery(constraints: Dict<string, string>, output: seq<string>) returns (query: string)
    ensures |constraints| > 0 ==> query == QueryHead(output) + Join(Clauses(constraints), " and ")
    ensures |constraints| == 0 ==> query + "here " == QueryHead(output)
  {
    query := QueryHead(output);
    var i := 0;
    while i < |constraints|
      invariant 0 <= i <= |constraints|
      invariant query == QueryHead(output) + ConditionText(constraints[..i])
    {
      var (key, value) := constraints[i];
      assert constraints[..i + 1][..i] == constraints[..i];
      query := query + (key + " = '" + ReplaceAll(value, "'", "") + "' and ");
      i := i + 1;
    }
    assert constraints[..|constraints|] == constraints;
    if |constraints| > 0 {
      ConditionTextJoin(constraints);
    }
    query := query[..|query| - 5];
  }

  /** One token of the inverted query. */
  function SwapToken(t: string): string {
    if Contains(t, "OBJECT") then ReplaceAll(t, "OBJECT", "SUBJECT")
    else if Contains(t, "SUBJECT") then ReplaceAll(t, "SUBJECT", "OBJECT")
    else t
  }

  function SwapTokens(ts: seq<string>): seq<string>
  {
    seq(|ts|, i requires 0 <= i < |ts| => SwapToken(ts[i]))
  }

  /** The inverted query: the query split on spaces, every token swapped,
      joined again. Its tokens are the swapped tokens of the query, one
      for one. */
  method InvertQuery(query: string) returns (query2: string)
    ensures query2 == Join(SwapTokens(Split(query, ' ')), " ")
    ensures Split(query2, ' ') == SwapTokens(Split(query, ' '))
  {
    var queryList := Split(query, ' ');
    ghost var original := queryList;
    var a := 0;
    while a < |queryList|
      invariant 0 <= a <= |queryList| == |original|
      invariant forall k :: 0 <= k < a ==> queryList[k] == SwapToken(original[k])
      invariant forall k :: a <= k < |queryList| ==> queryList[k] == original[k]
    {
      if Contains(queryList[a], "OBJECT") {
        queryList := queryList[a := ReplaceAll(queryList[a], "OBJECT", "SUBJECT")];
      } else if Contains(queryList[a], "SUBJECT") {
        queryList := queryList[a := ReplaceAll(queryList[a], "SUBJECT", "OBJECT")];
      }
      a := a + 1;
    }
    assert queryList == SwapTokens(original);
    query2 := Join(queryList, " ");
    SplitPiecesHaveNoSep(query, ' ');
    forall k | 0 <= k < |queryList|
      ensures ' ' !in queryList[k]
    {
      ReplaceAllKeepsCharOut(original[k], "OBJECT", "SUBJECT", ' ');
      ReplaceAllKeepsCharOut(original[k], "SUBJECT", "OBJECT", ' ');
    }
    SplitJoin(queryList, ' ');
  }

  /** A query none of whose tokens names a subject or an object is its own inversion. */
  lemma InvertWithoutRoles(query: string)
    requires forall k :: 0 <= k < |Split(query, ' ')| ==>
      !Contains(Split(query, ' ')[k], "OBJECT") && !Contains(Split(query, ' ')[k], "SUBJECT")
    ensures Join(SwapTokens(Split(query, ' ')), " ") == query
  {
    assert SwapTokens(Split(query, ' ')) == Split(query, ' ');
    JoinSplit(query, ' ');
  }

  /** The query get_node_info sends and, when bidirectional, the inverted one. */
  datatype NodeInfoQueries = NodeInfoQueries(query: string, inverted: Option<string>)

  /** get_node_info up to the database calls: None when a constraint or an
      output is not a field, or when they name all eight fields (the test
      is strict inclusion). */
  method GetNodeInfoQueries(constraints: Dict<string, string>, output: seq<string>, bidirectional: bool)
    returns (r: Option<NodeInfoQueries>)
    ensures r.None? <==>
      !(Elements(Keys(UpperKeys(constraints))) < Fields) || !(Elements(UpperAll(output)) < Fields)
    ensures r.Some? && |constraints| > 0 ==>
      r.value.query == QueryHead(UpperAll(output)) + Join(Clauses(UpperKeys(constraints)), " and ")
    ensures r.Some? && |constraints| == 0 ==> r.value.query + "here " == QueryHead(UpperAll(output))
    ensures r.Some? ==> (r.value.inverted.Some? <==> bidirectional)
    ensures r.Some? && bidirectional ==>
      Split(r.value.inverted.value, ' ') == SwapTokens(Split(r.value.query, ' '))
  {
    var out := UpperAll(output);
    var c := UpperKeys(constraints);
    var inputKeys := Keys(c);
    if !(Elements(inputKeys) < Fields) {
      return None;
    }
    if !(Elements(out) < Fields) {
      return None;
    }
    assert |c| == 0 <==> |constraints| == 0 by {
      if |constraints| > 0 {
        assert Upper(constraints[0].0) in Keys(c);
      }
    }
    var query := BuildQuery(c, out);
    var inverted := None;
    if bidirectional {
      var query2 := InvertQuery(query);
      inverted := Some(query2);
    }
    return Some(NodeInfoQueries(query, inverted));
  }

  /** Output fields cannot name all eight fields at once. */
  lemma AllFieldsRejected(output: seq<string>)
    requires Fields <= Elements(UpperAll(output))
    ensures !(Elements(UpperAll(output)) < Fields)
  {
  }

  // ---------------------------------------------------------------------------
  // get_cui_from_oxo

  /** The id sent to OxO: `REACT:` curies are rewritten to Reactome (every
      `REACT` in them is replaced), and a MeSH flag prefixes `MeSH:`. */
  function OxoQueryId(curie: string, meshFlag: bool): (id: string)
    ensures !StartsWith(curie, "REACT:") && !meshFlag ==> id == curie
    ensures meshFlag ==> id == "MeSH:" + OxoQueryId(curie, false)
  {
    var c := if StartsWith(curie, "REACT:") then ReplaceAll(curie, "REACT", "Reactome") else curie;
    if meshFlag then "MeSH:" + c else c
  }

  /** A Reactome curie whose local part does not repeat `REACT` is renamed by its prefix only. */
  lemma ReactomeRewrite(local: string)
    requires !Contains(local, "REACT")
    ensures OxoQueryId("REACT:" + local, false) == "Reactome:" + local
  {
    assert "REACT:" + local == "REACT" + ([':'] + local);
    ReplaceAllAtPattern("REACT", [':'] + local, "Reactome");
    ReplaceAllPastChar(':', local, "REACT", "Reactome");
    ReplaceAllAbsent(local, "REACT", "Reactome");
  }

  datatype Mapping = Mapping(fromCurie: string, toCurie: string)

  /** The JSON page OxO answers with, as far as it is read. */
  datatype OxoPage = OxoPage(totalElements: int, mappings: seq<Mapping>)

  /** `split(':')[1]` fails with IndexError on a curie without a colon. */
  datatype OxoError = IndexError

  /** The UMLS curie of a mapping: its source if that is UMLS, else its target if that is. */
  function UmlsCurie(m: Mapping): Option<string> {
    if StartsWith(m.fromCurie, "UMLS") then Some(m.fromCurie)
    else if StartsWith(m.toCurie, "UMLS") then Some(m.toCurie)
    else None
  }

  /** The CUI a mapping yields, an error, or nothing. */
  function MappingCui(m: Mapping): Option<Result<string, OxoError>> {
    match UmlsCurie(m)
    case None => None
    case Some(curie) =>
      var pieces := Split(curie, ':');
      if |pieces| >= 2 then Some(Success(pieces[1])) else Some(Failure(IndexError))
  }

  /** The CUIs of the first mappings, none of which fails. */
  function UmlsCuis(ms: seq<Mapping>): set<string> {
    if ms == [] then {}
    else
      UmlsCuis(ms[..|ms| - 1]) +
        match MappingCui(ms[|ms| - 1])
        case Some(Success(c)) => {c}
        case _ => {}
  }

  /** A CUI is collected exactly when some mapping yields it. */
  lemma {:induction false} UmlsCuisMembers(ms: seq<Mapping>)
    ensures forall c :: c in UmlsCuis(ms) <==> exists k :: 0 <= k < |ms| && MappingCui(ms[k]) == Some(Success(c))
  {
    if ms != [] {
      var init := ms[..|ms| - 1];
      UmlsCuisMembers(init);
      forall c
        ensures c in UmlsCuis(ms) <==> exists k :: 0 <= k < |ms| && MappingCui(ms[k]) == Some(Success(c))
      {
        if exists k :: 0 <= k < |ms| && MappingCui(ms[k]) == Some(Success(c)) {
          var k :| 0 <= k < |ms| && MappingCui(ms[k]) == Some(Success(c));
          if k < |init| {
            assert init[k] == ms[k];
          }
        }
        if c in UmlsCuis(init) {
          var k :| 0 <= k < |init| && MappingCui(init[k]) == Some(Success(c));
          assert ms[k] == init[k];
        }
      }
    }
  }

  predicate Fails(m: Mapping) {
    MappingCui(m) == Some(Failure(IndexError))
  }

  /** What get_cui_from_oxo returns for OxO's answer (None when the
      service did not answer): the CUIs as a set, None when there are
      none, or the IndexError a UMLS curie without a colon raises. */
  function CuisResponse(res: Option<OxoPage>): Result<Option<set<string>>, OxoError> {
    if res.None? || res.value.totalElements <= 0 then Success(None)
    else if exists k :: 0 <= k < |res.value.mappings| && Fails(res.value.mappings[k]) then Failure(IndexError)
    else
      var cuis := UmlsCuis(res.value.mappings);
      if cuis == {} then Success(None) else Success(Some(cuis))
  }

  /** The answer-processing part of get_cui_from_oxo. */
  method ExtractCuis(res: Option<OxoPage>) returns (r: Result<Option<set<string>>, OxoError>)
    ensures r == CuisResponse(res)
  {
    if res.None? {
      return Success(None);
    }
    var cui: set<string> := {};
    if res.value.totalElements > 0 {
      var mappings := res.value.mappings;
      var i := 0;
      while i < |mappings|
        invariant 0 <= i <= |mappings|
        invariant cui == UmlsCuis(mappings[..i])
        invariant forall k :: 0 <= k < i ==> !Fails(mappings[k])
      {
        var m := mappings[i];
        assert mappings[..i + 1][..i] == mappings[..i];
        if StartsWith(m.fromCurie, "UMLS") {
          var pieces := Split(m.fromCurie, ':');
          if |pieces| < 2 {
            return Failure(IndexError);
          }
          cui := cui + {pieces[1]};
        } else if StartsWith(m.toCurie, "UMLS") {
          var pieces := Split(m.toCurie, ':');
          if |pieces| < 2 {
            return Failure(IndexError);
          }
          cui := cui + {pieces[1]};
        }
        i := i + 1;
      }
      assert mappings[..|mappings|] == mappings;
    }
    if |cui| == 0 {
      return Success(None);
    }
    return Success(Some(cui));
  }

  /** get_cui_from_oxo, with the OxO service as a parameter. */
  method GetCuiFromOxo(curie: string, meshFlag: bool, queryOxo: string -> Option<OxoPage>)
    returns (r: Result<Option<set<string>>, OxoError>)
    ensures r == CuisResponse(queryOxo(OxoQueryId(curie, meshFlag)))
  {
    var id := if StartsWith(curie, "REACT:") then ReplaceAll(curie, "REACT", "Reactome") else curie;
    if meshFlag {
      id := "MeSH:" + id;
    }
    r := ExtractCuis(queryOxo(id));
  }

  /** A returned set is never empty, and holds exactly the CUIs of the UMLS mappings. */
  lemma CuisResponseSpec(res: Option<OxoPage>)
    ensures CuisResponse(res).Success? && CuisResponse(res).value.Some? ==>
      && CuisResponse(res).value.value != {}
      && forall c :: c in CuisResponse(res).value.value <==>
           exists k :: 0 <= k < |res.value.mappings| && MappingCui(res.value.mappings[k]) == Some(Success(c))
    ensures CuisResponse(res).Failure? <==>
      res.Some? && res.value.totalElements > 0 &&
      exists k :: 0 <= k < |res.value.mappings| && Fails(res.value.mappings[k])
  {
    if res.Some? {
      UmlsCuisMembers(res.value.mappings);
    }
  }
}
