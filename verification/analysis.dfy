/** Reconciliation of the structured result and the analysis pass
    `process_pending_videos`: every pending or failed row is sent through the
    structuring wrapper; the outcome is reconciled and written back, and the
    row becomes `completed` or `failed`. Serialising a result
    (`json.dumps(..., ensure_ascii=False)`) is the parameter `encode`. */
module Analysis {
  import opened Wrappers
  import opened Json
  import opened Records
  import opened Structuring

  type Encode = Json -> string

  /** `{"title": title, "main": [], "sauce": []}`. */
  function FailurePayload(title: string): Json {
    JObj(map["title" := JStr(title), "main" := JArr([]), "sauce" := JArr([])])
  }

  /** Both ingredient lists are empty or missing. */
  predicate NoIngredients(fields: map<string, Json>) {
    !TruthyOpt(Get(fields, "main")) && !TruthyOpt(Get(fields, "sauce"))
  }

  /** The policy reconciliation establishes: an object whose ingredient
      lists are both empty carries the analysis-failed title. */
  predicate Reconciled(v: Json) {
    v.JObj? && (NoIngredients(v.fields) ==> Get(v.fields, "title") == Some(JStr(AnalysisFailedTitle)))
  }

  /** The post-processing of `process_pending_videos`: a falsy value becomes
      the analysis-failed object; an object with no ingredients gets the
      analysis-failed title. `None` when the value is neither falsy nor an
      object, where `result_json.get` raises. */
  function Reconcile(v: Json): (r: Option<Json>)
    // A falsy value becomes exactly the analysis-failed object.
    ensures !Truthy(v) ==> r == Some(FailurePayload(AnalysisFailedTitle))
    // A truthy value that is not an object makes the step raise.
    ensures Truthy(v) && !v.JObj? ==> r.None?
    // Otherwise the result keeps the policy ...
    ensures r.Some? ==> Reconciled(r.value)
    // ... an object that already has an ingredient list is left as it is ...
    ensures v.JObj? && Truthy(v) && !NoIngredients(v.fields) ==> r == Some(v)
    // ... and on one without, only the title may change: every other key and
    // value, the two lists included, is kept.
    ensures v.JObj? && Truthy(v) ==>
              && r.Some? && r.value.JObj?
              && r.value.fields.Keys == (if NoIngredients(v.fields) then v.fields.Keys + {"title"} else v.fields.Keys)
              && forall k :: k in v.fields && k != "title" ==> r.value.fields[k] == v.fields[k]
  {
    var result := if Truthy(v) then v else FailurePayload(AnalysisFailedTitle);
    if !result.JObj? then None
    else if NoIngredients(result.fields) && Get(result.fields, "title") != Some(JStr(AnalysisFailedTitle)) then
      Some(JObj(result.fields["title" := JStr(AnalysisFailedTitle)]))
    else Some(result)
  }

  /** Reconciling a reconciled result changes nothing. */
  lemma ReconcileIdempotent(v: Json)
    requires Reconcile(v).Some?
    ensures Reconcile(Reconcile(v).value) == Reconcile(v)
  {
    var r := Reconcile(v).value;
    assert Reconciled(r);
    assert Truthy(r) by {
      if NoIngredients(r.fields) { assert "title" in r.fields; }
      else { assert r.fields != map[]; }
    }
  }

  /** The result shape the prompt asks for. */
  datatype StructuredResult = StructuredResult(title: string, main: seq<string>, sauce: seq<string>)

  function StringList(xs: seq<string>): (r: seq<Json>)
    ensures |r| == |xs|
    ensures forall k :: 0 <= k < |xs| ==> r[k] == JStr(xs[k])
  {
    if xs == [] then [] else [JStr(xs[0])] + StringList(xs[1..])
  }

  function ToJson(sr: StructuredResult): Json {
    JObj(map["title" := JStr(sr.title), "main" := JArr(StringList(sr.main)),
             "sauce" := JArr(StringList(sr.sauce))])
  }

  /** The reconciliation rule stated on the typed result: with both lists
      empty the title becomes the analysis-failed sentinel, and nothing else
      ever changes. */
  function ReconcileStructured(sr: StructuredResult): (r: StructuredResult)
    ensures r.main == sr.main && r.sauce == sr.sauce
    ensures sr.main == [] && sr.sauce == [] ==> r.title == AnalysisFailedTitle
    ensures sr.main != [] || sr.sauce != [] ==> r == sr
  {
    if sr.main == [] && sr.sauce == [] then sr.(title := AnalysisFailedTitle) else sr
  }

  /** On well-formed results the dictionary-level code applies exactly the
      typed rule. */
  lemma ReconcileMatchesTypedRule(sr: StructuredResult)
    ensures Reconcile(ToJson(sr)) == Some(ToJson(ReconcileStructured(sr)))
  {
    var j := ToJson(sr);
    assert "title" in j.fields;
    assert Truthy(j);
    assert Get(j.fields, "main") == Some(JArr(StringList(sr.main)));
    assert Get(j.fields, "sauce") == Some(JArr(StringList(sr.sauce)));
    if sr.main == [] && sr.sauce == [] {
      assert NoIngredients(j.fields);
      assert j.fields["title" := JStr(AnalysisFailedTitle)] == ToJson(ReconcileStructured(sr)).fields;
    } else {
      assert !NoIngredients(j.fields);
    }
  }

  /** What the `ai_title` column receives from `result_json.get('title')`:
      the title when it is a string, NULL otherwise. */
  function TitleColumn(fields: map<string, Json>): Option<string> {
    match Get(fields, "title")
    case Some(JStr(t)) => Some(t)
    case _ => None
  }

  /** Rows the analysis pass selects. */
  predicate Selected(v: VideoRecord) {
    v.status == Pending || v.status == Failed
  }

  /** The row after a failed attempt: `failed`, with the communication-error
      sentinel as title and payload. */
  function FailedRow(v: VideoRecord, encode: Encode): VideoRecord {
    v.(status := Failed, aiTitle := Some(CommunicationErrorTitle),
       aiIngredients := Some(encode(FailurePayload(CommunicationErrorTitle))))
  }

  /** One iteration of the analysis loop, for one row. */
  function AnalyzeRow(v: VideoRecord, generate: Generate, decode: Decode, encode: Encode): (r: VideoRecord)
    // Only the status and the two result columns are written.
    ensures r.(status := v.status, aiTitle := v.aiTitle, aiIngredients := v.aiIngredients) == v
    // The wrapper failing, or the reconciliation raising, leaves the row
    // failed with the communication-error sentinel.
    ensures r.status == Failed <==>
              || FirstSuccess(v.description, 1, generate, decode).None?
              || Reconcile(FirstSuccess(v.description, 1, generate, decode).value.0).None?
    ensures r.status == Failed ==> r == FailedRow(v, encode)
    // Otherwise the row is completed and both columns hold the reconciled
    // object: its title and its serialisation.
    ensures r.status != Failed ==>
              && r.status == Completed
              && var out := Reconcile(FirstSuccess(v.description, 1, generate, decode).value.0).value;
                 && Reconciled(out)
                 && r.aiTitle == TitleColumn(out.fields)
                 && r.aiIngredients == Some(encode(out))
  {
    match FirstSuccess(v.description, 1, generate, decode)
    case None => FailedRow(v, encode)
    case Some((value, _)) =>
      match Reconcile(value)
      case None => FailedRow(v, encode)
      case Some(out) =>
        v.(status := Completed, aiTitle := TitleColumn(out.fields), aiIngredients := Some(encode(out)))
  }

  /** A reply with ingredients but without a `title` key still completes the
      row, with a NULL `ai_title`: completion does not imply a title. */
  lemma CompletedRowMayLackTitle()
    ensures var v := VideoRecord("UCx", "t", "text", None, Pending, None, None);
            var reply := JObj(map["main" := JArr([JStr("onion")])]);
            var generate: Generate := (text: string, attempt: nat) => Some("{}");
            var decode: Decode := (text: string) => Some(reply);
            var encode: Encode := (j: Json) => "{}";
            var r := AnalyzeRow(v, generate, decode, encode);
            r.status == Completed && r.aiTitle.None?
  {
    var reply := JObj(map["main" := JArr([JStr("onion")])]);
    var generate: Generate := (text: string, attempt: nat) => Some("{}");
    var decode: Decode := (text: string) => Some(reply);
    assert Attempt("text", 1, generate, decode) == Some(reply);
    assert !NoIngredients(reply.fields) by { assert Truthy(JArr([JStr("onion")])); }
    assert FirstSuccess("text", 1, generate, decode) == Some((reply, 1));
    assert Reconcile(reply) == Some(reply);
    assert TitleColumn(reply.fields) == None by { assert "title" !in reply.fields; }
  }

  /** The store after one analysis pass, as a reference: rows are analysed
      independently of one another, so the order does not matter. */
  function PendingPass(store: Store, generate: Generate, decode: Decode, encode: Encode): Store {
    map id | id in store :: if Selected(store[id]) then AnalyzeRow(store[id], generate, decode, encode) else store[id]
  }

  /** `process_pending_videos`: every selected row is analysed and committed
      on its own; the query's row order is left open. */
  method ProcessPending(store: Store, generate: Generate, decode: Decode, encode: Encode)
    returns (out: Store)
    ensures out.Keys == store.Keys
    // Completed rows are never touched.
    ensures forall id :: id in store && !Selected(store[id]) ==> out[id] == store[id]
    // Every pending or failed row ends completed or failed, with the outcome
    // of its own analysis.
    ensures forall id :: id in store && Selected(store[id]) ==>
              && out[id] == AnalyzeRow(store[id], generate, decode, encode)
              && (out[id].status == Completed || out[id].status == Failed)
    ensures out == PendingPass(store, generate, decode, encode)
  {
    out := store;
    var todo := set id | id in store && Selected(store[id]);
    while todo != {}
      invariant todo <= store.Keys
      invariant out.Keys == store.Keys
      invariant forall id :: id in todo ==> Selected(store[id])
      invariant forall id :: id in store && (id in todo || !Selected(store[id])) ==> out[id] == store[id]
      invariant forall id :: id in store && Selected(store[id]) && id !in todo ==>
                  out[id] == AnalyzeRow(store[id], generate, decode, encode)
      decreases |todo|
    {
      var id :| id in todo;
      out := out[id := AnalyzeRow(out[id], generate, decode, encode)];
      todo := todo - {id};
    }
  }

  /** The status changes one analysis pass allows: pending and failed rows
      move to completed or failed; completed rows stay completed. */
  predicate AllowedTransition(before: Status, after: Status) {
    match before
    case Pending => after == Completed || after == Failed
    case Failed => after == Completed || after == Failed
    case Completed => after == Completed
  }

  /** Every status change of a pass follows the three-state machine, and a
      second pass leaves every row the first one completed as it is. */
  lemma PassFollowsStateMachine(store: Store, generate: Generate, decode: Decode, encode: Encode)
    ensures var first := PendingPass(store, generate, decode, encode);
            forall id :: id in store ==>
              && AllowedTransition(store[id].status, first[id].status)
              && (first[id].status == Completed ==>
                    PendingPass(first, generate, decode, encode)[id] == first[id])
  {
    var first := PendingPass(store, generate, decode, encode);
    forall id | id in store
      ensures AllowedTransition(store[id].status, first[id].status)
    {
      if Selected(store[id]) {
        var r := AnalyzeRow(store[id], generate, decode, encode);
        assert r.status == Completed || r.status == Failed;
      }
    }
  }
}
