/** The batch preparation of train.py: `preprocess_function`, with the
    tokenizer passed in as a function from a call to its encoding, and the
    rewrite of the ignore index in `accuracy` before decoding. */
module Train {
  import opened Wrappers
  import opened Data

  /** A columnar batch as the dataset library hands it over: one list of
      strings per column. */
  type Batch = map<string, seq<string>>

  /** What a tokenizer call returns: one list of token-id lists per key
      (`input_ids`, `attention_mask`, ...). */
  type Encoding = map<string, seq<seq<int>>>

  datatype Padding = DoNotPad | MaxLength

  /** The fields of the command-line arguments `preprocess_function` reads. */
  datatype Args = Args(debug: bool, trainBatchSize: int, maxSourceLength: int, maxTargetLength: int)

  /** One tokenizer call with every argument the source passes to it;
      `isTarget` tells the `text_target=` call from the plain one. */
  datatype TokenizerCall = TokenizerCall(
    texts: seq<string>,
    maxLength: int,
    padding: Padding,
    truncation: bool,
    isTarget: bool)

  /** How many rows a debug run keeps. */
  const DebugRows: nat := 3

  /** `column[:3]` in a debug run, the whole column otherwise. */
  function DebugSlice(column: seq<string>, debug: bool): (r: seq<string>)
    ensures debug ==> |r| == if |column| < DebugRows then |column| else DebugRows
    ensures debug ==> r == column[..|r|]
    ensures !debug ==> r == column
  {
    if debug && |column| > DebugRows then column[..DebugRows] else column
  }

  /** No padding exactly when the training batch holds one example. */
  function PaddingFor(trainBatchSize: int): (p: Padding)
    ensures p == DoNotPad <==> trainBatchSize == 1
  {
    if trainBatchSize == 1 then DoNotPad else MaxLength
  }

  /** The two tokenizer calls of `preprocess_function` (train.py:83-101):
      the questions as model inputs and the answers as targets. Reading a
      missing column raises KeyError, `question` first. */
  function TokenizerCalls(examples: Batch, args: Args): (r: Result<(TokenizerCall, TokenizerCall), Error>)
    ensures "question" !in examples ==> r == Failure(KeyError("question"))
    ensures "question" in examples && "answer" !in examples ==> r == Failure(KeyError("answer"))
    ensures "question" in examples && "answer" in examples ==> r.Success?
    ensures r.Success? ==> r.value.0.texts == DebugSlice(examples["question"], args.debug)
    ensures r.Success? ==> r.value.1.texts == DebugSlice(examples["answer"], args.debug)
    ensures r.Success? && args.debug ==> |r.value.0.texts| <= DebugRows && |r.value.1.texts| <= DebugRows
    ensures r.Success? ==> r.value.0.maxLength == args.maxSourceLength && r.value.1.maxLength == args.maxTargetLength
    ensures r.Success? ==> r.value.0.padding == r.value.1.padding
    ensures r.Success? ==> (r.value.0.padding == DoNotPad <==> args.trainBatchSize == 1)
    ensures r.Success? ==> r.value.0.truncation && r.value.1.truncation
    ensures r.Success? ==> !r.value.0.isTarget && r.value.1.isTarget
  {
    if "question" !in examples then Failure(KeyError("question"))
    else if "answer" !in examples then Failure(KeyError("answer"))
    else
      var inputs := DebugSlice(examples["question"], args.debug);
      var targets := DebugSlice(examples["answer"], args.debug);
      var padding := PaddingFor(args.trainBatchSize);
      Success((TokenizerCall(inputs, args.maxSourceLength, padding, true, false),
               TokenizerCall(targets, args.maxTargetLength, padding, true, true)))
  }

  /** `preprocess_function`: the encoding of the questions with one more
      key, `labels`, holding the `input_ids` of the encoded answers. */
  function Preprocess(examples: Batch, args: Args, tokenizer: TokenizerCall -> Encoding): (r: Result<Encoding, Error>)
    ensures TokenizerCalls(examples, args).Failure? ==> r == Failure(TokenizerCalls(examples, args).error)
    ensures TokenizerCalls(examples, args).Success? ==>
              var (source, target) := TokenizerCalls(examples, args).value;
              && (r.Success? <==> "input_ids" in tokenizer(target))
              && (r.Failure? ==> r.error == KeyError("input_ids"))
              && (r.Success? ==> r.value.Keys == tokenizer(source).Keys + {"labels"})
              && (r.Success? ==> r.value["labels"] == tokenizer(target)["input_ids"])
              && (r.Success? ==> forall k :: k in tokenizer(source) && k != "labels" ==> r.value[k] == tokenizer(source)[k])
  {
    var calls :- TokenizerCalls(examples, args);
    var modelInputs := tokenizer(calls.0);
    var labels := tokenizer(calls.1);
    if "input_ids" !in labels then Failure(KeyError("input_ids"))
    else Success(modelInputs["labels" := labels["input_ids"]])
  }

  // ---------------------------------------------------------------------
  // accuracy: the ignore index becomes token 0 before decoding
  // ---------------------------------------------------------------------

  /** The label the trainer uses for positions the loss ignores. */
  const IgnoreIndex: int := -100

  /** Every ignore index replaced by 0. */
  function Unmasked(s: seq<int>): (r: seq<int>)
    ensures |r| == |s|
  {
    if s == [] then [] else [if s[0] == IgnoreIndex then 0 else s[0]] + Unmasked(s[1..])
  }

  /** Position by position: the ignore index becomes 0, every other entry
      and the length stay. */
  lemma {:induction false} UnmaskedAt(s: seq<int>, k: nat)
    requires k < |s|
    ensures Unmasked(s)[k] == if s[k] == IgnoreIndex then 0 else s[k]
  {
    if k > 0 {
      UnmaskedAt(s[1..], k - 1);
    }
  }

  /** No ignore index is left. */
  lemma {:induction false} UnmaskedHasNoIgnoreIndex(s: seq<int>)
    ensures IgnoreIndex !in Unmasked(s)
  {
    if s != [] {
      UnmaskedHasNoIgnoreIndex(s[1..]);
    }
  }

  /** Rewriting twice is rewriting once. */
  lemma {:induction false} UnmaskedIdempotent(s: seq<int>)
    ensures Unmasked(Unmasked(s)) == Unmasked(s)
  {
    if s != [] {
      UnmaskedIdempotent(s[1..]);
      assert (([if s[0] == IgnoreIndex then 0 else s[0]] + Unmasked(s[1..])))[1..] == Unmasked(s[1..]);
    }
  }

  /** `a[a == -100] = 0`, as a loop over the array. */
  method ReplaceIgnoreIndex(a: array<int>)
    modifies a
    ensures a[..] == Unmasked(old(a[..]))
  {
    for i := 0 to a.Length
      invariant forall k :: 0 <= k < i ==> a[k] == if old(a[k]) == IgnoreIndex then 0 else old(a[k])
      invariant forall k :: i <= k < a.Length ==> a[k] == old(a[k])
    {
      if a[i] == IgnoreIndex {
        a[i] := 0;
      }
    }
    ghost var was := old(a[..]);
    forall k | 0 <= k < a.Length
      ensures a[..][k] == Unmasked(was)[k]
    {
      UnmaskedAt(was, k);
    }
  }

  /** Lines 19-20 of `accuracy`: labels first, then predictions. Neither
      array holds the ignore index afterwards, also when both are the same
      array. */
  method ClearIgnoreIndex(labels: array<int>, predictions: array<int>)
    modifies labels, predictions
    ensures labels[..] == Unmasked(old(labels[..]))
    ensures predictions[..] == Unmasked(old(predictions[..]))
    ensures IgnoreIndex !in labels[..] && IgnoreIndex !in predictions[..]
  {
    ReplaceIgnoreIndex(labels);
    ReplaceIgnoreIndex(predictions);
    if labels == predictions {
      UnmaskedIdempotent(old(labels[..]));
    }
    UnmaskedHasNoIgnoreIndex(old(labels[..]));
    UnmaskedHasNoIgnoreIndex(old(predictions[..]));
  }
}
