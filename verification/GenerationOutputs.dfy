/** Which outputs a run was asked for (backend/agent/generation_registry.py). */
module GenerationOutputs {
  import opened Json
  import opened Results

  datatype OutputKey = RecommendedTasks | RecommendedDecisionTree | MiroBoard

  const ALL_OUTPUTS := [RecommendedTasks, RecommendedDecisionTree, MiroBoard]

  function KeyNamed(name: string): Option<OutputKey> {
    if name == "recommended_tasks" then Some(RecommendedTasks)
    else if name == "recommended_decision_tree" then Some(RecommendedDecisionTree)
    else if name == "miro_board" then Some(MiroBoard)
    else None
  }

  datatype OutputsError = NotAnArray | NotAString | UnknownOutput | NoneSelected

  /** `loads` decodes a JSON text, when it is one. */
  type Decoder = string -> Option<Json>

  function Normalize(raw: Json, loads: Decoder): Result<seq<OutputKey>, OutputsError> {
    if raw.Null? || raw == Str("") then Ok(ALL_OUTPUTS)
    else if raw.Str? then
      match loads(raw.s)
      case None => Err(NotAnArray)
      case Some(decoded) => NormalizeList(decoded)
    else NormalizeList(raw)
  }

  function NormalizeList(raw: Json): Result<seq<OutputKey>, OutputsError> {
    if !raw.Arr? then Err(NotAnArray)
    else
      match Collect(raw.items)
      case Err(e) => Err(e)
      case Ok(keys) => if keys == [] then Err(NoneSelected) else Ok(keys)
  }

  /** The listed outputs, each once, in order of first mention. */
  function Collect(items: seq<Json>): Result<seq<OutputKey>, OutputsError> {
    if items == [] then Ok([])
    else
      var last := items[|items| - 1];
      match Collect(items[..|items| - 1])
      case Err(e) => Err(e)
      case Ok(keys) =>
        if !last.Str? then Err(NotAString)
        else
          match KeyNamed(last.s)
          case None => Err(UnknownOutput)
          case Some(key) => Ok(if key in keys then keys else keys + [key])
  }

  /** Step types, named as far as the engine tells them apart. */
  datatype StepType =
    | AwaitConfirmation | FlowControl | CallDify
    | CreateTasks | CreateDecision | GenerateMiroSnapshot | CreateMiroBoard
    | OtherStep(name: string)

  predicate ShouldSkip(t: StepType, requested: set<OutputKey>) {
    || (t == CreateTasks && RecommendedTasks !in requested)
    || (t == CreateDecision && RecommendedDecisionTree !in requested)
    || ((t == GenerateMiroSnapshot || t == CreateMiroBoard) && MiroBoard !in requested)
  }

  ghost predicate Names(j: Json, key: OutputKey) {
    j.Str? && KeyNamed(j.s) == Some(key)
  }

  lemma {:induction false} CollectAccepts(items: seq<Json>)
    ensures Collect(items).Ok? <==> forall i | 0 <= i < |items| :: items[i].Str? && KeyNamed(items[i].s).Some?
  {
    if items != [] {
      CollectAccepts(items[..|items| - 1]);
    }
  }

  lemma {:induction false} CollectLists(items: seq<Json>, key: OutputKey)
    requires Collect(items).Ok?
    ensures key in Collect(items).value <==> exists i :: 0 <= i < |items| && Names(items[i], key)
  {
    if items != [] {
      var front, last := items[..|items| - 1], items[|items| - 1];
      CollectLists(front, key);
      assert key in Collect(items).value <==> key in Collect(front).value || Names(last, key);
    }
  }

  lemma {:induction false} CollectOnce(items: seq<Json>)
    requires Collect(items).Ok?
    ensures forall i, j | 0 <= i < j < |Collect(items).value| :: Collect(items).value[i] != Collect(items).value[j]
  {
    if items != [] {
      CollectOnce(items[..|items| - 1]);
    }
  }

  /** A list is accepted exactly when every entry names an output; the result is the outputs named, each once. */
  lemma {:induction false} CollectExactly(items: seq<Json>)
    ensures Collect(items).Ok? <==> forall i | 0 <= i < |items| :: items[i].Str? && KeyNamed(items[i].s).Some?
    ensures Collect(items).Ok? ==>
      forall key :: key in Collect(items).value <==> exists i :: 0 <= i < |items| && Names(items[i], key)
    ensures Collect(items).Ok? ==>
      forall i, j | 0 <= i < j < |Collect(items).value| :: Collect(items).value[i] != Collect(items).value[j]
  {
    CollectAccepts(items);
    if Collect(items).Ok? {
      CollectOnce(items);
      forall key ensures key in Collect(items).value <==> exists i :: 0 <= i < |items| && Names(items[i], key) {
        CollectLists(items, key);
      }
    }
  }

  /** The output that each name asks for, and the steps made for it. */
  const MADE_FOR := map[
    "recommended_tasks" := {CreateTasks},
    "recommended_decision_tree" := {CreateDecision},
    "miro_board" := {GenerateMiroSnapshot, CreateMiroBoard}
  ]

  /** A run that is asked for one output skips the steps made for the others, and no other step. */
  lemma AskedForOne(name: string, loads: Decoder, t: StepType)
    requires name in MADE_FOR
    ensures var keys := Normalize(Arr([Str(name)]), loads);
            && keys.Ok? && |keys.value| == 1
            && (ShouldSkip(t, {keys.value[0]}) <==>
                t !in MADE_FOR[name] && exists other | other in MADE_FOR :: t in MADE_FOR[other])
  {
    assert Collect([]) == Ok([]) && [Str(name)][..0] == [];
    assert "recommended_tasks" in MADE_FOR && "recommended_decision_tree" in MADE_FOR && "miro_board" in MADE_FOR;
  }

  /** Without a request all outputs are made; an empty list and an unknown name are refused. */
  lemma AskedForNothing(loads: Decoder, t: StepType)
    ensures Normalize(Null, loads) == Normalize(Str(""), loads) == Ok(ALL_OUTPUTS)
    ensures !ShouldSkip(t, set k | k in ALL_OUTPUTS)
    ensures Normalize(Arr([]), loads) == Err(NoneSelected)
  {
    assert RecommendedTasks == ALL_OUTPUTS[0] && RecommendedDecisionTree == ALL_OUTPUTS[1];
    assert MiroBoard == ALL_OUTPUTS[2];
  }
}
