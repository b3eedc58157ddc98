# ARAX filter_kg, SemMed interface and WordNet distance — a Dafny model

This project models three parts of the RTX/ARAX reasoning tool in Dafny 4.11 and proves properties of them.

- **`filter_kg` front end** (`ARAXFilterKG`). It validates a parameter dict and checks it against a per-action table of allowable parameters. It normalises the `remove_connected_nodes` flag and converts the `threshold` to a float, then hands over to the collaborator that removes edges or nodes.
  - The stateful engine is modelled as classes: `ARAXFilterKG`, `Response` and `ParamDict`, in `filter_kg.dfy`.
  - It is proved against pure functions in `filter_kg_spec.dfy`. These give the tables, the errors `check_params` logs, the normaliser, the threshold conversion, and, per action, the entries a handler appends, the parameters it leaves and its hand-over.
  - The collaborators `RemoveEdges` and `RemoveNodes` are opaque. Each hand-over is recorded in a ghost list of calls, with the parameters and the response status at that moment.
- **SemMed interface** (`semmed.dfy`):
  - the CUI→ids index built from the map file;
  - `get_node_from_cui`;
  - the validation and SQL text of `get_node_info`, including the SUBJECT/OBJECT swap of the inverted query;
  - the id rewriting and the UMLS extraction of `get_cui_from_oxo`.
- **WordNet distance** (`wordnet.dfy`):
  - the Penn Treebank → WordNet tag mapping;
  - the best-score/mean aggregation of `sentence_similarity`, with path similarities as an abstract function;
  - the symmetric average;
  - the first-maximum searches `max_in_corpus` and `find_corpus`.

Supporting modules:
- `wrappers.dfy`: `Option` and `Result`.
- `strings.dfy`: the Python `str` operations used, namely `startswith`, `in`, `replace`, one-character `split`, `join`, ASCII `upper` and decimal `float`.
- `ordered_dict.dfy`: an insertion-ordered dict as a sequence of pairs.

Three exceptions the source raises are modelled as `Failure` values:
- the IndexError of `get_cui_from_oxo` on a UMLS curie without a colon;
- the IndexError of `max_in_corpus` on an empty corpus;
- the `Exception` that `find_corpus` raises when no distance is positive.

So is the KeyError of `get_node_from_cui` when names are asked of a map file without a `name` column. In `filter_kg`, the errors that `float()` raises become logged error codes, as in the source. The remaining exceptions are excluded by preconditions or listed under "## Left out". That includes the OverflowError of `float()` and the TypeErrors raised when a graph field the handlers iterate over is None: the `edge_attributes` of an edge, the `edges` or `nodes` of the knowledge graph, or the `type` list of a node.

## Quirks modelled as written

- Without a graph, the tables hold only placeholder strings ("an edge type", "a floating point number", …). So a real value is rejected with `UnknownValue` rather than accepted. The model follows the code; see `EdgesByTypeWithoutGraph` and `EdgesByAttributeNeedsGraph`.
- The permitted flag strings include `'f'` but the normaliser recognises `'F'`. So `remove_connected_nodes=f` passes `check_params`, is then rejected by the normaliser, and `remove_edges_by_type` still hands over with the error logged (`EdgesByTypeLowercaseF`).
- `get_node_info`:
  - The field test is strict inclusion, so naming all eight fields is rejected (`AllFieldsRejected`).
  - With no constraints, `query[:-5]` cuts into `where ` (`BuildQuery`).

## Model

Source paths below are relative to the repository root.

| member | source | states |
|---|---|---|
| FilterKGSpec.ParseAction | code/ARAX/ARAXQuery/ARAX_filter_kg.py:77 | a value names an action exactly when it is one of the three allowable action names, and the action found has that name |
| FilterKGSpec.ActionNameRoundTrip | code/ARAX/ARAXQuery/ARAX_filter_kg.py:21-25 | every action's name is allowable and parses back to the same action |
| FilterKGSpec.StatusOkAppend | code/ARAX/ARAXQuery/ARAX_filter_kg.py:81 | a log is OK after appending exactly when both parts are free of errors |
| FilterKGSpec.NamesExact | code/ARAX/ARAXQuery/ARAX_filter_kg.py:168-169 | a name is in an edge's attribute-name set iff some attribute of the list has that name |
| FilterKGSpec.AttributeNamesExact | code/ARAX/ARAXQuery/ARAX_filter_kg.py:165-169 | the collected attribute names are exactly the names of the attributes of the edges that have attributes |
| FilterKGSpec.EdgeTypeTableExact | code/ARAX/ARAXQuery/ARAX_filter_kg.py:112-116 | with a query graph that has edges, an edge type is permitted iff some knowledge-graph edge has that type |
| FilterKGSpec.NodeTypeTableExact | code/ARAX/ARAXQuery/ARAX_filter_kg.py:246-249 | with a query graph that has nodes, a node type is permitted iff some node lists it among its types |
| FilterKGSpec.AttributeTableExact | code/ARAX/ARAXQuery/ARAX_filter_kg.py:164-176 | with a knowledge graph, an edge attribute is permitted iff some edge carries an attribute of that name |
| FilterKGSpec.StopIndex | code/ARAX/ARAXQuery/ARAX_filter_kg.py:48-50 | the position where check_params returns: the first pair whose value is rejected by a set holding a float, or the end |
| FilterKGSpec.CheckErrorsAreErrors | code/ARAX/ARAXQuery/ARAX_filter_kg.py:43-54 | check_params logs only UnknownParameter and UnknownValue errors, so it leaves the status OK iff it logs nothing |
| FilterKGSpec.CheckErrorsAppend | code/ARAX/ARAXQuery/ARAX_filter_kg.py:43-54 | before the early return, the errors of a dict are those of its first pairs followed by those of the rest, in iteration order |
| FilterKGSpec.CheckErrorsStop | code/ARAX/ARAXQuery/ARAX_filter_kg.py:48-50 | pairs after the stopping pair are never examined: any continuation yields the same errors |
| FilterKGSpec.CheckReportsUnknownKey | code/ARAX/ARAXQuery/ARAX_filter_kg.py:44-47 | a key that is not permitted, met before the stop, is reported as UnknownParameter |
| FilterKGSpec.CheckReportsUnknownValue | code/ARAX/ARAXQuery/ARAX_filter_kg.py:48-54 | a value that is not permitted, met before the stop, is reported as UnknownValue |
| FilterKGSpec.CheckErrorsEmptyIff | code/ARAX/ARAXQuery/ARAX_filter_kg.py:43-54 | check_params logs nothing iff every pair before the stop has a permitted key and value |
| FilterKGSpec.NormalizeConnectedSpec | code/ARAX/ARAXQuery/ARAX_filter_kg.py:135-145 | a missing flag becomes False; true/True/t become True; false/False/F become False; any other value logs one UnknownValue error and leaves the parameters unchanged |
| FilterKGSpec.FlagSpellingMismatch | code/ARAX/ARAXQuery/ARAX_filter_kg.py:115-140 | 'f' is a permitted flag string but not a recognised flag; 'F' is recognised but not permitted |
| FilterKGSpec.NormalizeKeepsOthers | code/ARAX/ARAXQuery/ARAX_filter_kg.py:134-145 | the normaliser changes no entry other than remove_connected_nodes |
| FilterKGSpec.NormalizeStatus | code/ARAX/ARAXQuery/ARAX_filter_kg.py:137-143 | the normaliser leaves the status OK iff it logs nothing |
| FilterKGSpec.ThresholdWithoutDigits | code/ARAX/ARAXQuery/ARAX_filter_kg.py:193-199 | within the modelled decimal subset of float(), a threshold string with no digit converts to ValueError |
| FilterKGSpec.EdgesByTypeHandOver | code/ARAX/ARAXQuery/ARAX_filter_kg.py:128-151 | remove_edges_by_type hands over iff check_params logged nothing; the collaborator gets the normalised parameters and sees an OK status iff the normaliser logged nothing; without a hand-over the status is an error |
| FilterKGSpec.EdgesByTypeLowercaseF | code/ARAX/ARAXQuery/ARAX_filter_kg.py:115-151 | remove_connected_nodes=f reaches RemoveEdges with one UnknownValue error already logged |
| FilterKGSpec.EdgesByTypeWithoutGraph | code/ARAX/ARAXQuery/ARAX_filter_kg.py:117-132 | without a query graph that has edges, any real edge type is rejected with UnknownValue and nothing is handed over |
| FilterKGSpec.EdgesByTypeWithGraph | code/ARAX/ARAXQuery/ARAX_filter_kg.py:112-151 | with the type present in the graph, the call is handed over with nothing logged and remove_connected_nodes appended as False |
| FilterKGSpec.EdgesByAttributeHandOver | code/ARAX/ARAXQuery/ARAX_filter_kg.py:190-233 | remove_edges_by_attribute hands over only on a clean log, with the final parameters, and does so iff the threshold converts, check_params, the normaliser and the direction test all pass |
| FilterKGSpec.EdgesByAttributeBadThreshold | code/ARAX/ARAXQuery/ARAX_filter_kg.py:193-201 | a threshold that is missing or does not convert logs the exception's name and the generic error, and nothing else happens |
| FilterKGSpec.EdgesByAttributeMissingDirection | code/ARAX/ARAXQuery/ARAX_filter_kg.py:222-227 | without a direction nothing is handed over, and once earlier steps pass an UnknownValue error is logged |
| FilterKGSpec.NoFloatNoStop | code/ARAX/ARAXQuery/ARAX_filter_kg.py:48-50 | a table with no float in any set lets check_params run to the end of the dict |
| FilterKGSpec.PlaceholderTableHasNoFloat | code/ARAX/ARAXQuery/ARAX_filter_kg.py:178-183 | the placeholder table of remove_edges_by_attribute holds strings only |
| FilterKGSpec.EdgesByAttributeNeedsGraph | code/ARAX/ARAXQuery/ARAX_filter_kg.py:177-207 | without a knowledge graph a converted threshold is always rejected with UnknownValue and nothing is handed over |
| FilterKGSpec.ThresholdEndsCheck | code/ARAX/ARAXQuery/ARAX_filter_kg.py:48-50 | with a graph, a non-zero float threshold ends the check, so an unknown key after it is not reported |
| FilterKGSpec.NodesByTypeHandOver | code/ARAX/ARAXQuery/ARAX_filter_kg.py:259-271 | remove_nodes_by_type leaves the parameters as they are and hands over, with a clean log, iff check_params logged nothing |
| FilterKG.ParamDict.constructor | code/ARAX/ARAXQuery/ARAX_filter_kg.py:85 | a new dict is empty |
| FilterKG.ParamDict.Set | code/ARAX/ARAXQuery/ARAX_filter_kg.py:87 | item assignment replaces the value of an existing key in place or appends a new key |
| FilterKG.Response.constructor | code/ARAX/ARAXQuery/ARAX_filter_kg.py:62 | a new response has an empty log and no stored parameters |
| FilterKG.Response.LogError | code/ARAX/ARAXQuery/ARAX_filter_kg.py:68 | an error with its code is appended to the log, and the status is no longer OK |
| FilterKG.Response.LogDebug | code/ARAX/ARAXQuery/ARAX_filter_kg.py:96 | a debug entry is appended to the log |
| FilterKG.CopyDict | code/ARAX/ARAXQuery/ARAX_filter_kg.py:85-87 | the copy is a fresh dict with the same pairs in the same order |
| FilterKG.CollectAttributeNames | code/ARAX/ARAXQuery/ARAX_filter_kg.py:165-169 | the nested loops collect exactly the attribute-name set |
| FilterKG.ARAXFilterKG.constructor | code/ARAX/ARAXQuery/ARAX_filter_kg.py:17-25 | no response, message or parameters yet, and no hand-overs; the three allowable actions |
| FilterKG.ARAXFilterKG.CheckParams | code/ARAX/ARAXQuery/ARAX_filter_kg.py:36-54 | the loop appends to the response log exactly the errors the check defines, in order, stopping early at a float set |
| FilterKG.ARAXFilterKG.NormalizeConnectedNodes | code/ARAX/ARAXQuery/ARAX_filter_kg.py:134-145 | the shared dict and the log become what the normaliser defines |
| FilterKG.ARAXFilterKG.ConvertThreshold | code/ARAX/ARAXQuery/ARAX_filter_kg.py:193-199 | on success the threshold is replaced by its float in place; on failure the exception's name and the generic error are logged and the dict is untouched |
| FilterKG.ARAXFilterKG.RequireDirection | code/ARAX/ARAXQuery/ARAX_filter_kg.py:222-225 | a missing direction appends one UnknownValue error; otherwise the log is unchanged |
| FilterKG.ARAXFilterKG.HandOver | code/ARAX/ARAXQuery/ARAX_filter_kg.py:148-150 | one call is recorded, with the current parameters and status |
| FilterKG.ARAXFilterKG.RemoveEdgesByType | code/ARAX/ARAXQuery/ARAX_filter_kg.py:101-151 | describe returns the table and changes nothing; otherwise the log, the parameters and the calls become the outcome FilterKGSpec assigns |
| FilterKG.ARAXFilterKG.EdgesByAttributeAllowable | code/ARAX/ARAXQuery/ARAX_filter_kg.py:164-183 | the table built from the message equals the specified table |
| FilterKG.ARAXFilterKG.RemoveEdgesByAttribute | code/ARAX/ARAXQuery/ARAX_filter_kg.py:153-233 | describe returns the table and changes nothing; otherwise the log, the parameters and the calls become the outcome FilterKGSpec assigns |
| FilterKG.ARAXFilterKG.CheckConvertedParams | code/ARAX/ARAXQuery/ARAX_filter_kg.py:203-233 | after the threshold converts: check, normalise, direction test and hand-over, as FilterKGSpec assigns |
| FilterKG.ARAXFilterKG.RemoveNodesByType | code/ARAX/ARAXQuery/ARAX_filter_kg.py:235-271 | describe returns the table and changes nothing; otherwise the log, the parameters and the calls become the outcome FilterKGSpec assigns |
| FilterKG.ARAXFilterKG.Dispatch | code/ARAX/ARAXQuery/ARAX_filter_kg.py:94 | the handler the action names runs, with the outcome FilterKGSpec assigns to that action |
| FilterKG.ARAXFilterKG.Apply | code/ARAX/ARAXQuery/ARAX_filter_kg.py:59-99 | a non-dict, a missing action or an unknown action logs one error and returns with nothing stored; otherwise a fresh copy is stored in the response and the filter, the action's handler runs, and one debug entry follows its log |
| OrderedDict.AssignLookup | code/ARAX/ARAXQuery/ARAX_filter_kg.py:138 | after `d[k] = v`, k holds v and every other key keeps its value |
| OrderedDict.AssignFreshAppends | code/ARAX/ARAXQuery/ARAX_filter_kg.py:145 | assigning a key not yet present appends the pair at the end |
| Strings.ParseDecimalNeedsDigit | code/ARAX/ARAXQuery/ARAX_filter_kg.py:194 | the modelled decimal subset of float() rejects every string without a digit |
| Strings.ReplaceAllDeletesChar | code/reasoningtool/SemMedDB/SemMedInterface.py:532 | replacing a one-character pattern by the empty string removes exactly that character and keeps the rest in order |
| SemMedInterface.HitsSpec | code/reasoningtool/SemMedDB/SemMedInterface.py:51-55 | one row adds only its own id, and adds it iff it lists the CUI |
| SemMedInterface.IdsForMembers | code/reasoningtool/SemMedDB/SemMedInterface.py:50-55 | an id is listed for a CUI iff some row with that id lists the CUI |
| SemMedInterface.IdsForEmpty | code/reasoningtool/SemMedDB/SemMedInterface.py:49-55 | the ids listed for a CUI are non-empty iff some row lists it |
| SemMedInterface.IndexIdsHaveRows | code/reasoningtool/SemMedDB/SemMedInterface.py:50-56 | every id in the index is the id of some row of the map |
| SemMedInterface.AddRowStep | code/reasoningtool/SemMedDB/SemMedInterface.py:52-55 | one turn of the inner loop extends exactly the next CUI's list by the row's id, and keeps every list non-empty |
| SemMedInterface.AddRow | code/reasoningtool/SemMedDB/SemMedInterface.py:51-55 | one row's loop appends its id once per listed occurrence of each CUI, creating missing entries, and no list is ever empty |
| SemMedInterface.BuildCuiDict | code/reasoningtool/SemMedDB/SemMedInterface.py:48-55 | the index has a key for exactly the CUIs of the file, each mapped to the ids listing it in file order |
| SemMedInterface.FirstRowWith | code/reasoningtool/SemMedDB/SemMedInterface.py:568 | the first map row with the id, or none when no row has it |
| SemMedInterface.SemMedInterface.constructor | code/reasoningtool/SemMedDB/SemMedInterface.py:47-59 | the index is built only when the file exists and has both columns; otherwise it is empty |
| SemMedInterface.SemMedInterface.GetNodeFromCui | code/reasoningtool/SemMedDB/SemMedInterface.py:563-572 | None iff the CUI is not indexed; KeyError iff names are asked for an indexed CUI and the map has no `name` column; otherwise either its ids, or the name of the first map row of each id, in order |
| SemMedInterface.UpperKeys | code/reasoningtool/SemMedDB/SemMedInterface.py:516 | the upper-cased constraint keys are exactly the upper-cased originals |
| SemMedInterface.UpperKeysLastWins | code/reasoningtool/SemMedDB/SemMedInterface.py:516 | each upper-cased key holds the value of the last constraint that upper-cases to it |
| SemMedInterface.ClauseQuoting | code/reasoningtool/SemMedDB/SemMedInterface.py:532 | a clause quotes its value with every `'` removed, so the quoted part holds no quote and keeps every other character |
| SemMedInterface.ConditionTextJoin | code/reasoningtool/SemMedDB/SemMedInterface.py:531-533 | the clause loop produces the clauses joined by " and ", plus one trailing " and " |
| SemMedInterface.BuildQuery | code/reasoningtool/SemMedDB/SemMedInterface.py:530-533 | with constraints, the query is the head followed by the clauses joined by " and "; without them, the cut removes the last five characters of the head |
| SemMedInterface.InvertQuery | code/reasoningtool/SemMedDB/SemMedInterface.py:539-545 | the inverted query splits into exactly the swapped tokens of the original |
| SemMedInterface.InvertWithoutRoles | code/reasoningtool/SemMedDB/SemMedInterface.py:539-545 | a query with no SUBJECT or OBJECT token inverts to itself |
| SemMedInterface.GetNodeInfoQueries | code/reasoningtool/SemMedDB/SemMedInterface.py:505-545 | None iff the constraint keys or the output fields are not a strict subset of the eight fields; otherwise the query as built, plus an inverted query iff bidirectional |
| SemMedInterface.AllFieldsRejected | code/reasoningtool/SemMedDB/SemMedInterface.py:525-529 | output naming all eight fields fails the strict-subset test |
| SemMedInterface.OxoQueryId | code/reasoningtool/SemMedDB/SemMedInterface.py:158-164 | an id that is not a Reactome curie is sent unchanged; with the MeSH flag the sent id is prefixed by `MeSH:` |
| SemMedInterface.ReactomeRewrite | code/reasoningtool/SemMedDB/SemMedInterface.py:158-159 | `REACT:x` is sent as `Reactome:x` when x has no other `REACT` |
| SemMedInterface.UmlsCuisMembers | code/reasoningtool/SemMedDB/SemMedInterface.py:172-176 | a CUI is collected iff some mapping yields it, from its source if that is UMLS, else from its target |
| SemMedInterface.ExtractCuis | code/reasoningtool/SemMedDB/SemMedInterface.py:165-181 | the loop over the mappings returns the specified response |
| SemMedInterface.GetCuiFromOxo | code/reasoningtool/SemMedDB/SemMedInterface.py:156-181 | the service is queried with the rewritten id, and its answer is processed as specified |
| SemMedInterface.CuisResponseSpec | code/reasoningtool/SemMedDB/SemMedInterface.py:166-181 | a returned CUI set is non-empty and holds exactly the CUIs of the UMLS mappings; IndexError iff results exist and some UMLS curie has no colon |
| WordnetDistance.PennToWn | code/reasoningtool/QuestionAnswering/WordnetDistance.py:5-19 | a tag maps iff it starts with N, V, J or R, to n, v, a or r respectively |
| WordnetDistance.PennToWnFirstLetter | code/reasoningtool/QuestionAnswering/WordnetDistance.py:5-19 | only the first letter of a tag matters |
| WordnetDistance.Present | code/reasoningtool/QuestionAnswering/WordnetDistance.py:58-60 | every kept synset was found and every found synset is kept |
| WordnetDistance.PresentAppend | code/reasoningtool/QuestionAnswering/WordnetDistance.py:58-60 | the filter exactly: a found synset is kept, a missing one dropped, and the filter distributes over concatenation, so order and repeats are preserved |
| WordnetDistance.BestOfSpec | code/reasoningtool/QuestionAnswering/WordnetDistance.py:68-73 | the best score is -1 or one of the truthy similarities, and no truthy similarity above -1 exceeds it |
| WordnetDistance.BestScoreSpec | code/reasoningtool/QuestionAnswering/WordnetDistance.py:68-75 | a word has no best score iff it has no truthy similarity above -1; otherwise the best score is attained and is the greatest |
| WordnetDistance.SumContributions | code/reasoningtool/QuestionAnswering/WordnetDistance.py:62-80 | the loop's score and count are the sum and number of the best scores of the words that have one |
| WordnetDistance.SentenceSimilarity | code/reasoningtool/QuestionAnswering/WordnetDistance.py:58-96 | the result is the Jaccard index when at most three words contribute, and otherwise the mean contribution |
| WordnetDistance.ContributionsBounds | code/reasoningtool/QuestionAnswering/WordnetDistance.py:65-80 | with similarities in [0, 1], every contribution is in (0, 1] |
| WordnetDistance.SumBounds | code/reasoningtool/QuestionAnswering/WordnetDistance.py:79 | a sum of n values in (0, 1] lies in [0, n] |
| WordnetDistance.SentenceScoreBounds | code/reasoningtool/QuestionAnswering/WordnetDistance.py:43-96 | with similarities and the Jaccard index in [0, 1], the directed score is in [0, 1] |
| WordnetDistance.SymmetricSpec | code/reasoningtool/QuestionAnswering/WordnetDistance.py:99-107 | the symmetric score does not depend on argument order, lies between the two directed scores, and so stays in [0, 1] when they do |
| WordnetDistance.MaxScoreSpec | code/reasoningtool/QuestionAnswering/WordnetDistance.py:110-119 | the best score of a non-empty corpus is attained by some entry and bounds every entry |
| WordnetDistance.MaxInCorpus | code/reasoningtool/QuestionAnswering/WordnetDistance.py:110-119 | IndexError iff the corpus is empty; otherwise the earliest index of the greatest symmetric score, and that score |
| WordnetDistance.FindCorpus | code/reasoningtool/QuestionAnswering/WordnetDistance.py:122-140 | IndexError iff some corpus is empty; otherwise the earliest corpus with the strictly greatest positive best score and that score, or an exception when no best score is positive (including an empty list) |

## Definitions

The specification functions below have no contract of their own. The lemmas and methods in "## Model" state their properties; this table gives the source lines each one follows.

| function | source | defines |
|---|---|---|
| FilterKGSpec.Classify | code/ARAX/ARAXQuery/ARAX_filter_kg.py:44-54 | the verdict on one pair: unknown key, accepted, rejected value, or a rejection that ends the check because the set holds a float |
| FilterKGSpec.CheckErrors | code/ARAX/ARAXQuery/ARAX_filter_kg.py:43-54 | the errors check_params logs, in iteration order, up to the early return |
| FilterKGSpec.EdgesByTypeTable | code/ARAX/ARAXQuery/ARAX_filter_kg.py:112-121 | the allowable parameters of remove_edges_by_type |
| FilterKGSpec.EdgesByAttributeTable | code/ARAX/ARAXQuery/ARAX_filter_kg.py:164-183 | the allowable parameters of remove_edges_by_attribute |
| FilterKGSpec.NodesByTypeTable | code/ARAX/ARAXQuery/ARAX_filter_kg.py:246-252 | the allowable parameters of remove_nodes_by_type |
| FilterKGSpec.FlagOf | code/ARAX/ARAXQuery/ARAX_filter_kg.py:137-140 | the flag a value spells: True for true/True/t, False for false/False/F, otherwise none |
| FilterKGSpec.NormalizeConnected | code/ARAX/ARAXQuery/ARAX_filter_kg.py:134-145 | the remove_connected_nodes normaliser: the error it logs and the parameters it leaves |
| FilterKGSpec.ToFloat | code/ARAX/ARAXQuery/ARAX_filter_kg.py:194-198 | `float(edge_params['threshold'])`: KeyError when missing, ValueError or TypeError when it does not convert; converted values are exact reals (see "## Left out") |
| FilterKGSpec.WithThreshold | code/ARAX/ARAXQuery/ARAX_filter_kg.py:193-194 | the parameters with the threshold converted in place |
| FilterKGSpec.EdgesByTypeOutcome | code/ARAX/ARAXQuery/ARAX_filter_kg.py:128-151 | what remove_edges_by_type logs, leaves and hands over |
| FilterKGSpec.ConvertedAttributeOutcome | code/ARAX/ARAXQuery/ARAX_filter_kg.py:203-233 | remove_edges_by_attribute after the threshold converted |
| FilterKGSpec.EdgesByAttributeOutcome | code/ARAX/ARAXQuery/ARAX_filter_kg.py:190-233 | what remove_edges_by_attribute logs, leaves and hands over |
| FilterKGSpec.NodesByTypeOutcome | code/ARAX/ARAXQuery/ARAX_filter_kg.py:259-271 | what remove_nodes_by_type logs, leaves and hands over |
| FilterKGSpec.HandlerOutcome | code/ARAX/ARAXQuery/ARAX_filter_kg.py:94 | the outcome of the handler an action names |
| SemMedInterface.Hits | code/reasoningtool/SemMedDB/SemMedInterface.py:51-55 | what one row adds to a CUI's list: its id once per listed occurrence |
| SemMedInterface.IdsFor | code/reasoningtool/SemMedDB/SemMedInterface.py:50-55 | the ids listed for a CUI after the whole file |
| SemMedInterface.UpperAll | code/reasoningtool/SemMedDB/SemMedInterface.py:515 | the upper-cased output fields |
| SemMedInterface.QueryHead | code/reasoningtool/SemMedDB/SemMedInterface.py:530 | `select distinct`, the output fields joined by `, `, and `from SPLIT_PREDICATION where ` |
| SemMedInterface.Clause | code/reasoningtool/SemMedDB/SemMedInterface.py:532 | one condition: the key, ` = '`, the value without single quotes, and `'` |
| SemMedInterface.Clauses | code/reasoningtool/SemMedDB/SemMedInterface.py:531-532 | the conditions of the constraints, in order |
| SemMedInterface.Piece | code/reasoningtool/SemMedDB/SemMedInterface.py:532 | what one turn of the clause loop appends: the clause and ` and ` |
| SemMedInterface.ConditionText | code/reasoningtool/SemMedDB/SemMedInterface.py:531-532 | the text the clause loop appends, over the constraints in order |
| SemMedInterface.SwapTokens | code/reasoningtool/SemMedDB/SemMedInterface.py:539-545 | the tokens of the inverted query, each swapped |
| SemMedInterface.SwapToken | code/reasoningtool/SemMedDB/SemMedInterface.py:541-544 | one token of the inverted query |
| SemMedInterface.UmlsCurie | code/reasoningtool/SemMedDB/SemMedInterface.py:173-176 | the UMLS curie of a mapping, from its source if that is UMLS, else from its target |
| SemMedInterface.MappingCui | code/reasoningtool/SemMedDB/SemMedInterface.py:173-176 | the CUI after the colon, or IndexError when there is none |
| SemMedInterface.UmlsCuis | code/reasoningtool/SemMedDB/SemMedInterface.py:172-176 | the CUIs collected from the mappings |
| SemMedInterface.CuisResponse | code/reasoningtool/SemMedDB/SemMedInterface.py:165-181 | None for no answer or no CUI, the CUI set, or IndexError |
| WordnetDistance.BestOf | code/reasoningtool/QuestionAnswering/WordnetDistance.py:68-73 | the running maximum over the truthy similarities, starting at -1 |
| WordnetDistance.BestScore | code/reasoningtool/QuestionAnswering/WordnetDistance.py:68-75 | the best score, or None when it stayed -1 |
| WordnetDistance.Contributions | code/reasoningtool/QuestionAnswering/WordnetDistance.py:65-80 | the best scores of the words of the first sentence that have one |
| WordnetDistance.SentenceScore | code/reasoningtool/QuestionAnswering/WordnetDistance.py:83-96 | the mean contribution, or the Jaccard index when at most three words contribute |
| WordnetDistance.Vals | code/reasoningtool/QuestionAnswering/WordnetDistance.py:67 | the path similarities of one synset to every synset of the other sentence |
| WordnetDistance.Sum | code/reasoningtool/QuestionAnswering/WordnetDistance.py:79 | the sum the `score +=` steps accumulate |
| WordnetDistance.Symmetric | code/reasoningtool/QuestionAnswering/WordnetDistance.py:107 | the mean of the two directed scores |
| WordnetDistance.MaxScore | code/reasoningtool/QuestionAnswering/WordnetDistance.py:112-118 | the greatest symmetric score over a corpus |

## Left out

- Message texts of the logged errors and debug entries are left out. The log keeps each entry's kind and error code, in order.
- Collaborator effects are left out: the removal of edges and nodes by `RemoveEdges` and `RemoveNodes`, and whatever those collaborators log. Each hand-over is recorded in the ghost `calls` list, and the response they return is the shared `Response`.
- describe mode: the tables are returned instead of printed. `describe_me` and `main` (ARAX_filter_kg.py lines 27-33 and 273 onwards) are not part of this model, because they only drive the handlers and print.
- FilterKG.ARAXFilterKG.RemoveEdgesByType: requires `EdgesReadable`. With a message, parameters and a query graph that has edges but no knowledge graph, line 114 raises AttributeError; that case is excluded rather than modelled.
- FilterKG.ARAXFilterKG.RemoveNodesByType: requires `NodesReadable`, the same exclusion for the query graph's nodes and line 248.
- FilterKG.ARAXFilterKG.Dispatch: requires `HandlerReadable` only for the action being dispatched. Apply requires it only for the action its input names, when that action parses. remove_edges_by_attribute tests for the knowledge graph itself and requires nothing.
- FilterKG.ARAXFilterKG.RemoveEdgesByType: the non-describe path requires an OK response. This holds because `apply` only dispatches after its own checks passed. The same holds for the other two handlers.
- Strings.ParseDecimal: models the syntax `float()` accepts for `[sign] digits [. digits]`, with ASCII digits only, and gives the exact real the text denotes. There is no rounding to the nearest double, no underflow of a tiny value to 0.0 and no OverflowError for a huge one. Exponents, `inf`/`nan`/`infinity`, surrounding whitespace, underscores and non-ASCII decimal digits are not modelled; they are ValueError in the model.
- Strings.ParseDecimalNeedsDigit: holds of the modelled subset only. Python's `float()` also accepts digit-free strings such as `inf` or `nan`, and digits outside ASCII.
- FilterKGSpec.ToFloat: the converted threshold is exact, so a threshold that Python rounds to 0.0 (for example `0.` followed by 400 zeros and a `1`) is non-zero here. In Python it then passes the float set at line 48 and the check goes on, while the model stops there and may hand over. A number above the largest double, which makes `float()` raise OverflowError at line 194, converts in the model.
- FilterKG.ARAXFilterKG.ConvertThreshold: uses FilterKGSpec.ToFloat, so it has the same limits: no rounding, no underflow to 0.0, no OverflowError logged.
- FilterKGSpec.ThresholdWithoutDigits: same limit. A threshold of `nan` or `inf` converts in Python, but it is ValueError in the model.
- Strings.Upper: models ASCII letters only; the full Unicode case mapping is left out.
- FilterKGSpec.EdgesByTypeTable: the knowledge graph's `edges` and `nodes` are lists and each node's `type` is a list, so None in any of them cannot be represented. In the source, a None `edges` raises TypeError at line 114 (edge types) and at line 166 (attribute names), since the `hasattr` guards at lines 112 and 164 do not test for None. A None `nodes` raises TypeError at line 248, and so does a node whose `type` is None. These TypeErrors are left out.
- FilterKGSpec.AttributeNames: an edge without `edge_attributes` is `attributes == None`. An edge whose `edge_attributes` exists but is None, which makes line 168 raise TypeError, cannot be represented, so that exception is left out.
- Python truthiness of the message is modelled as `Some`/`None`, and of the parameters as a non-empty dict. Values are strings, numbers, booleans or None; other JSON values are left out.
- SemMedInterface: file reading, pandas parsing (including `ast.literal_eval` of the `cuis` column), MySQL queries (`get_dataframe_from_db`), the DataFrames and their concatenation, and the HTTP call to OxO are all left out. The map file arrives already read (`MapFile`). The OxO service is a function parameter. get_node_info returns the query texts it would send.
- SemMedInterface.GetNodeInfoQueries: the `orientation` column is not modelled. With `bidirectional` set, line 548 writes `'inverted'` into `df`, not `df2`, and raises when `df` is None. The model stops at the query texts.
- SemMedInterface.GetNodeInfoQueries: `assert type(...)` at line 519 and the diagnostic prints at lines 521-528 are left out. Arguments are typed.
- SemMedInterface.GetCuiFromOxo: returns the CUIs as a set. The Python `list(cui)` has an unspecified order. The `str(curie_id)` conversion of a non-string id is left out; ids are strings.
- SemMedInterface.SemMedInterface.GetNodeFromCui: an indexed id missing from the map cannot arise from an index built from the same file (`Valid`). The index is never changed after construction. A map without a `name` column is modelled by the `hasNames` field, so reading a name raises KeyError.
- WordnetDistance: tokenising, POS tagging, synset lookup (`tagged_to_synset`, lines 22-40) and `path_similarity` are NLTK calls. They are left out: the synsets, the similarity function and the directed sentence score are parameters.
- WordnetDistance.SentenceSimilarity: the Jaccard index of lines 91-93 depends on tokenisation, so it is a parameter. The model states when it replaces the mean.
- WordnetDistance: scores are exact reals, not floating point. The test functions at the end of WordnetDistance.py are not part of this model.
