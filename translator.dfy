/**
 * The translator's own logic around the neural network: the batch of
 * source sentences turned into an id matrix and lengths, the option
 * checks, the target prefix forced through the decoder, and the results
 * assembled from the search's output. The encoder, the decoder and the
 * greedy and beam searches are one abstract function from the decoding
 * request to its output.
 */
module TranslatorOps {
  import opened Wrappers
  import opened Tensors
  import VocabMap

  /** The options the translator reads. */
  datatype TranslationOptions = TranslationOptions(
    beamSize: nat, numHypotheses: nat, maxDecodingLength: nat, minDecodingLength: nat,
    useVmap: bool, returnAttention: bool)

  /** What the translator needs of the model: its vocabularies and the vocabulary map's candidates. */
  datatype Model = Model(
    sourceVocab: VocabMap.Vocabulary, targetVocab: VocabMap.Vocabulary,
    toToken: nat -> string, candidatesOf: seq<seq<string>> -> seq<nat>)

  /** Greedy search, or beam search of a width keeping some hypotheses. */
  datatype Search = Greedy | Beam(beamSize: nat, numHypotheses: nat)

  /**
   * Everything the search starts from: the encoder's inputs, the
   * candidate restriction, the decoder inputs fed for the prefix, the
   * tokens to sample from next and the decoding bounds.
   */
  datatype DecodeRequest = DecodeRequest(
    ids: seq<int>, lengths: seq<int>, maxLength: nat, candidates: seq<nat>,
    prefixFed: seq<nat>, sampleFrom: seq<nat>, startStep: nat, endToken: nat,
    maxDecodingLength: nat, minDecodingLength: nat, search: Search, withAttention: bool)

  /** Attention weights of one sentence: per hypothesis, per step, per source position. */
  type Attention = seq<seq<seq<real>>>

  /** The search's output: per sentence, the sampled ids and score of each hypothesis. */
  datatype SearchOutput = SearchOutput(sampledIds: seq<seq<seq<nat>>>, scores: seq<seq<real>>, attention: seq<Attention>)

  datatype TranslationResult = TranslationResult(hypotheses: seq<seq<string>>, scores: seq<real>, attention: Option<Attention>)

  const HYPOTHESES_OVER_BEAM := "The number of hypotheses can not be greater than the beam size"
  const NO_VOCABULARY_MAP := "use_vmap is set but the model does not include a vocabulary map"
  const MIN_OVER_MAX := "min_decoding_length is greater than max_decoding_length"
  const PREFIX_ATTENTION := "Prefixed translation currently does not support returning attention vectors"
  const PREFIX_BATCH := "Prefixed translation currently does not support batch inputs"

  /** `std::to_string` of a size. */
  function NatToString(n: nat): (s: string)
    ensures |s| > 0 && (s[0] == '0' ==> n == 0)
    ensures forall k | 0 <= k < |s| :: '0' <= s[k] <= '9'
  {
    if n < 10 then [('0' as int + n) as char] else NatToString(n / 10) + [('0' as int + n % 10) as char]
  }

  /** The number a string of decimal digits spells. */
  function DecimalValue(s: string): int {
    if s == [] then 0 else 10 * DecimalValue(s[..|s| - 1]) + (s[|s| - 1] as int - '0' as int)
  }

  /** Reading the digits back gives the number. */
  lemma {:induction false} NatToStringValue(n: nat)
    ensures DecimalValue(NatToString(n)) == n
  {
    var s := NatToString(n);
    if n >= 10 {
      NatToStringValue(n / 10);
      assert s[..|s| - 1] == NatToString(n / 10);
    } else {
      assert s[..|s| - 1] == [];
    }
  }

  function BatchMismatch(batchSize: nat, prefixCount: nat): string {
    "Batch size mismatch: got " + NatToString(batchSize) + " for source and "
      + NatToString(prefixCount) + " for target prefix"
  }

  /**
   * The options and inputs a translation accepts: no more hypotheses
   * than the beam keeps, a vocabulary map when one is asked for, a
   * minimum length within the maximum, and, with a target prefix, no
   * attention asked for and a single sentence with its single prefix.
   */
  predicate Acceptable(options: TranslationOptions, vmapEmpty: bool, batchSize: nat, prefixCount: nat) {
    && options.numHypotheses <= options.beamSize
    && !(options.useVmap && vmapEmpty)
    && options.minDecodingLength <= options.maxDecodingLength
    && (prefixCount > 0 ==> !options.returnAttention && batchSize == 1 && prefixCount == 1)
  }

  /** The checks of the options and inputs, in order: the message of the first that fails. */
  function CheckArguments(options: TranslationOptions, vmapEmpty: bool, batchSize: nat, prefixCount: nat): (r: Option<string>)
    ensures r.None? <==> Acceptable(options, vmapEmpty, batchSize, prefixCount)
    ensures options.numHypotheses > options.beamSize ==> r == Some(HYPOTHESES_OVER_BEAM)
    ensures r.Some? && prefixCount == 0 ==> r.value in {HYPOTHESES_OVER_BEAM, NO_VOCABULARY_MAP, MIN_OVER_MAX}
  {
    if options.numHypotheses > options.beamSize then Some(HYPOTHESES_OVER_BEAM)
    else if options.useVmap && vmapEmpty then Some(NO_VOCABULARY_MAP)
    else if options.minDecodingLength > options.maxDecodingLength then Some(MIN_OVER_MAX)
    else if prefixCount > 0 then
      if options.returnAttention then Some(PREFIX_ATTENTION)
      else if batchSize > 1 then Some(PREFIX_BATCH)
      else if prefixCount != batchSize then Some(BatchMismatch(batchSize, prefixCount))
      else None
    else None
  }

  /** The length of each sentence. */
  function Lengths(tokens: seq<seq<string>>): (r: seq<int>)
    ensures |r| == |tokens| && forall i | 0 <= i < |tokens| :: r[i] == |tokens[i]|
  {
    seq(|tokens|, i requires 0 <= i < |tokens| => |tokens[i]|)
  }

  /** The longest sentence's length, 0 for no sentence. */
  function MaxLength(tokens: seq<seq<string>>): nat {
    if tokens == [] then 0
    else
      var m := MaxLength(tokens[..|tokens| - 1]);
      var length := |tokens[|tokens| - 1]|;
      if m < length then length else m
  }

  /** No sentence is longer than `MaxLength`, and, unless there are none, one is that long. */
  lemma {:induction false} MaxLengthIsMaximum(tokens: seq<seq<string>>)
    ensures forall i | 0 <= i < |tokens| :: |tokens[i]| <= MaxLength(tokens)
    ensures tokens == [] ==> MaxLength(tokens) == 0
    ensures tokens != [] ==> exists i | 0 <= i < |tokens| :: |tokens[i]| == MaxLength(tokens)
  {
    if tokens != [] {
      var front := tokens[..|tokens| - 1];
      MaxLengthIsMaximum(front);
      forall i | 0 <= i < |front| ensures tokens[i] == front[i] { }
      if MaxLength(front) > |tokens[|tokens| - 1]| {
        var i :| 0 <= i < |front| && |front[i]| == MaxLength(front);
        assert |tokens[i]| == MaxLength(tokens);
      } else {
        assert |tokens[|tokens| - 1]| == MaxLength(tokens);
      }
    }
  }

  /** One sentence's row of ids, `width` long: its tokens' ids, then zeros. */
  function Row(sentence: seq<string>, width: nat, toId: string -> nat): (r: seq<int>)
    ensures |r| == width
  {
    seq(width, t requires 0 <= t < width => if t < |sentence| then toId(sentence[t]) else 0)
  }

  /** The id matrix of the batch, row after row, each `width` long. */
  function PaddedIds(tokens: seq<seq<string>>, width: nat, toId: string -> nat): (r: seq<int>)
    ensures |r| == |tokens| * width
  {
    if tokens == [] then []
    else PaddedIds(tokens[..|tokens| - 1], width, toId) + Row(tokens[|tokens| - 1], width, toId)
  }

  /** Entry `[i, t]` of the id matrix is the id of token `t` of sentence `i`, or 0 past its end. */
  lemma {:induction false} PaddedIdsAt(tokens: seq<seq<string>>, width: nat, toId: string -> nat, i: nat, t: nat)
    requires i < |tokens| && t < width
    ensures 0 <= Flat(i, width, t) < |tokens| * width
    ensures PaddedIds(tokens, width, toId)[Flat(i, width, t)] == if t < |tokens[i]| then toId(tokens[i][t]) else 0
  {
    FlatBound(i, t, |tokens|, width);
    var front, last := tokens[..|tokens| - 1], tokens[|tokens| - 1];
    var before := PaddedIds(front, width, toId);
    assert PaddedIds(tokens, width, toId) == before + Row(last, width, toId);
    if i < |tokens| - 1 {
      PaddedIdsAt(front, width, toId, i, t);
      assert front[i] == tokens[i];
      assert PaddedIds(tokens, width, toId)[Flat(i, width, t)] == before[Flat(i, width, t)];
    } else {
      assert Flat(i, width, t) == |before| + t;
      assert PaddedIds(tokens, width, toId)[Flat(i, width, t)] == Row(last, width, toId)[t];
    }
  }

  /**
   * `make_inputs`: the lengths, the maximum length and the id matrix,
   * `[batch, max_length]`, of a batch of sentences. Entries past a
   * sentence's end hold 0.
   */
  method MakeInputs(tokens: seq<seq<string>>, toId: string -> nat) returns (ids: array<int>, lengths: array<int>, maxLength: nat)
    ensures fresh(ids) && fresh(lengths)
    ensures lengths[..] == Lengths(tokens) && maxLength == MaxLength(tokens)
    ensures ids[..] == PaddedIds(tokens, maxLength, toId)
  {
    lengths, maxLength := RecordLengths(tokens);
    ids := new int[|tokens| * maxLength](_ => 0);
    MaxLengthIsMaximum(tokens);
    FillIds(ids, tokens, maxLength, toId);
  }

  /** The first loop of `make_inputs`: each sentence's length, and the longest. */
  method RecordLengths(tokens: seq<seq<string>>) returns (lengths: array<int>, maxLength: nat)
    ensures fresh(lengths)
    ensures lengths[..] == Lengths(tokens) && maxLength == MaxLength(tokens)
  {
    var batchSize := |tokens|;
    maxLength := 0;
    lengths := new int[batchSize];
    for i := 0 to batchSize
      invariant maxLength == MaxLength(tokens[..i])
      invariant lengths[..i] == Lengths(tokens[..i])
    {
      var length := |tokens[i]|;
      lengths[i] := length;
      maxLength := if maxLength < length then length else maxLength;
      assert tokens[..i + 1][..i] == tokens[..i];
    }
    assert tokens[..batchSize] == tokens;
  }

  /** The id matrix after one more sentence. */
  lemma PaddedIdsSnoc(tokens: seq<seq<string>>, i: nat, width: nat, toId: string -> nat)
    requires i < |tokens|
    ensures PaddedIds(tokens[..i + 1], width, toId) == PaddedIds(tokens[..i], width, toId) + Row(tokens[i], width, toId)
  {
    assert tokens[..i + 1][..i] == tokens[..i];
  }

  /** The second loop of `make_inputs`: row after row, the ids of each sentence into the zeroed matrix. */
  method FillIds(ids: array<int>, tokens: seq<seq<string>>, width: nat, toId: string -> nat)
    requires ids.Length == |tokens| * width
    requires forall i | 0 <= i < |tokens| :: |tokens[i]| <= width
    requires forall k | 0 <= k < ids.Length :: ids[k] == 0
    modifies ids
    ensures ids[..] == PaddedIds(tokens, width, toId)
  {
    var base := 0;
    for i := 0 to |tokens|
      invariant base == Flat(i, width, 0) && base <= ids.Length
      invariant ids[..base] == PaddedIds(tokens[..i], width, toId)
      invariant forall k | base <= k < ids.Length :: ids[k] == 0
    {
      FlatEnd(i, width, |tokens|, width);
      FillRow(ids, tokens[i], base, width, toId);
      PaddedIdsSnoc(tokens, i, width, toId);
      assert ids[..base + width] == ids[..base] + ids[base..base + width];
      FlatNext(i, width, 0);
      base := base + width;
    }
    assert tokens[..|tokens|] == tokens;
    assert ids[..base] == ids[..];
  }

  /** The inner loop of `make_inputs`: the ids of one sentence's tokens into its zeroed row. */
  method FillRow(ids: array<int>, sentence: seq<string>, base: nat, width: nat, toId: string -> nat)
    requires base + width <= ids.Length && |sentence| <= width
    requires forall k | base <= k < ids.Length :: ids[k] == 0
    modifies ids
    ensures ids[base..base + width] == Row(sentence, width, toId)
    ensures ids[..base] == old(ids[..base])
    ensures forall k | base + width <= k < ids.Length :: ids[k] == 0
  {
    for t := 0 to |sentence|
      invariant ids[..base] == old(ids[..base])
      invariant forall k | base <= k < base + t :: ids[k] == toId(sentence[k - base])
      invariant forall k | base + t <= k < ids.Length :: ids[k] == 0
    {
      ids[base + t] := toId(sentence[t]);
    }
    forall k | 0 <= k < width ensures ids[base..base + width][k] == Row(sentence, width, toId)[k] {
      assert ids[base..base + width][k] == ids[base + k];
    }
  }

  /** The ids of a sequence of tokens. */
  function TokenIds(tokens: seq<string>, toId: string -> nat): (r: seq<nat>)
    ensures |r| == |tokens| && forall i | 0 <= i < |tokens| :: r[i] == toId(tokens[i])
  {
    seq(|tokens|, i requires 0 <= i < |tokens| => toId(tokens[i]))
  }

  /**
   * The loop forwarding the target prefix: at each step the decoder is
   * fed the token to sample from, which then becomes the prefix's token
   * of that step. Returns what was fed, step by step, and the token to
   * sample from after the prefix.
   */
  method ForwardPrefix(prefix: seq<string>, startToken: nat, toId: string -> nat) returns (fed: seq<nat>, sampleFrom: nat)
    ensures fed + [sampleFrom] == [startToken] + TokenIds(prefix, toId)
  {
    fed := [];
    sampleFrom := startToken;
    for i := 0 to |prefix|
      invariant fed + [sampleFrom] == [startToken] + TokenIds(prefix[..i], toId)
    {
      fed := fed + [sampleFrom];
      sampleFrom := toId(prefix[i]);
      assert TokenIds(prefix[..i + 1], toId) == TokenIds(prefix[..i], toId) + [toId(prefix[i])];
    }
    assert prefix[..|prefix|] == prefix;
  }

  /**
   * Teacher forcing: one decoder step per prefix token, the first fed
   * the start token, each later one the prefix token before it; after
   * the prefix, sampling goes on from its last token.
   */
  lemma {:induction false} PrefixFeeding(prefix: seq<string>, startToken: nat, toId: string -> nat, fed: seq<nat>, sampleFrom: nat)
    requires fed + [sampleFrom] == [startToken] + TokenIds(prefix, toId)
    ensures |fed| == |prefix|
    ensures |fed| > 0 ==> fed[0] == startToken
    ensures forall i | 0 < i < |fed| :: fed[i] == toId(prefix[i - 1])
    ensures sampleFrom == if prefix == [] then startToken else toId(prefix[|prefix| - 1])
  {
    var all := [startToken] + TokenIds(prefix, toId);
    assert |all| == |prefix| + 1;
    if |fed| > 0 {
      assert fed[0] == all[0];
    }
    forall i | 0 < i < |fed| ensures fed[i] == toId(prefix[i - 1]) {
      assert fed[i] == all[i];
    }
    assert sampleFrom == (fed + [sampleFrom])[|fed|] == all[|prefix|];
  }

  /** The tokens of a sequence of ids. */
  function Tokens(ids: seq<nat>, toToken: nat -> string): (r: seq<string>)
    ensures |r| == |ids| && forall k | 0 <= k < |ids| :: r[k] == toToken(ids[k])
  {
    seq(|ids|, k requires 0 <= k < |ids| => toToken(ids[k]))
  }

  /** The loop pushing the tokens of the sampled ids after what a hypothesis holds. */
  method AppendTokens(hypothesis: seq<string>, ids: seq<nat>, toToken: nat -> string) returns (r: seq<string>)
    ensures r == hypothesis + Tokens(ids, toToken)
  {
    r := hypothesis;
    for k := 0 to |ids|
      invariant r == hypothesis + Tokens(ids[..k], toToken)
    {
      r := r + [toToken(ids[k])];
      assert Tokens(ids[..k + 1], toToken) == Tokens(ids[..k], toToken) + [toToken(ids[k])];
    }
    assert ids[..|ids|] == ids;
  }

  /** Hypothesis `h` of sentence `i`: its prefix, if any, then the tokens sampled. */
  function Hypothesis(out: SearchOutput, targetPrefix: seq<seq<string>>, withPrefix: bool, i: nat, h: nat, toToken: nat -> string): seq<string>
    requires i < |out.sampledIds| && h < |out.sampledIds[i]| && (withPrefix ==> i < |targetPrefix|)
  {
    (if withPrefix then targetPrefix[i] else []) + Tokens(out.sampledIds[i][h], toToken)
  }

  /** The result of sentence `i`: its hypotheses, its scores, and its attention when the search gave some. */
  function ResultAt(out: SearchOutput, targetPrefix: seq<seq<string>>, withPrefix: bool, i: nat, toToken: nat -> string): TranslationResult
    requires i < |out.sampledIds| && i < |out.scores| && (withPrefix ==> i < |targetPrefix|)
  {
    TranslationResult(
      seq(|out.sampledIds[i]|, h requires 0 <= h < |out.sampledIds[i]| => Hypothesis(out, targetPrefix, withPrefix, i, h, toToken)),
      out.scores[i],
      if i < |out.attention| then Some(out.attention[i]) else None)
  }

  /** The loop building the results, one per sentence. */
  method BuildResults(out: SearchOutput, targetPrefix: seq<seq<string>>, withPrefix: bool, batchSize: nat, toToken: nat -> string)
    returns (results: seq<TranslationResult>)
    requires batchSize <= |out.sampledIds| && batchSize <= |out.scores| && (withPrefix ==> batchSize <= |targetPrefix|)
    ensures |results| == batchSize
    ensures forall i | 0 <= i < batchSize :: results[i] == ResultAt(out, targetPrefix, withPrefix, i, toToken)
  {
    results := [];
    for i := 0 to batchSize
      invariant |results| == i
      invariant forall i' | 0 <= i' < i :: results[i'] == ResultAt(out, targetPrefix, withPrefix, i', toToken)
    {
      var numHypotheses := |out.sampledIds[i]|;
      var hypotheses: seq<seq<string>> := seq(numHypotheses, _ => []);
      for h := 0 to numHypotheses
        invariant |hypotheses| == numHypotheses
        invariant forall h' | 0 <= h' < h :: hypotheses[h'] == Hypothesis(out, targetPrefix, withPrefix, i, h', toToken)
        invariant forall h' | h <= h' < numHypotheses :: hypotheses[h'] == []
      {
        if withPrefix {
          hypotheses := hypotheses[h := targetPrefix[i]];
        }
        var hypothesis := AppendTokens(hypotheses[h], out.sampledIds[i][h], toToken);
        hypotheses := hypotheses[h := hypothesis];
      }
      var attention := if i < |out.attention| then Some(out.attention[i]) else None;
      results := results + [TranslationResult(hypotheses, out.scores[i], attention)];
    }
  }

  /** The search gives one entry per sentence of the request. */
  predicate Answers(out: SearchOutput, request: DecodeRequest) {
    |out.sampledIds| == |request.lengths| && |out.scores| == |request.lengths|
  }

  /**
   * The request an accepted translation hands to the search: the inputs
   * of `make_inputs`, the vocabulary map's candidates only when asked
   * for, the prefix forced from the start token on, decoding from the
   * step after the prefix, and greedy search exactly for a beam of one.
   */
  function Request(source: seq<seq<string>>, targetPrefix: seq<seq<string>>, options: TranslationOptions, model: Model): (q: DecodeRequest)
    requires targetPrefix != [] ==> |source| == 1 && |targetPrefix| == 1
    ensures |q.lengths| == |source| && |q.sampleFrom| == |source|
    ensures q.search.Greedy? <==> options.beamSize == 1
    ensures q.startStep == (if targetPrefix == [] then 0 else |targetPrefix[0]|) == |q.prefixFed|
    ensures !options.useVmap ==> q.candidates == []
  {
    var toId := model.targetVocab.toId;
    var startToken := toId(model.targetVocab.bos);
    var prefix := if targetPrefix == [] then [] else targetPrefix[0];
    var forced := [startToken] + TokenIds(prefix, toId);
    DecodeRequest(
      PaddedIds(source, MaxLength(source), model.sourceVocab.toId), Lengths(source), MaxLength(source),
      if options.useVmap then model.candidatesOf(source) else [],
      forced[..|prefix|], seq(|source|, _ => forced[|prefix|]), |prefix|, toId(model.targetVocab.eos),
      options.maxDecodingLength, options.minDecodingLength,
      if options.beamSize == 1 then Greedy else Beam(options.beamSize, options.numHypotheses),
      options.returnAttention)
  }

  /** `translate_batch_with_prefix`: the checks, then the search, then the results. */
  function Translation(source: seq<seq<string>>, targetPrefix: seq<seq<string>>, options: TranslationOptions, model: Model,
                       vmapEmpty: bool, search: DecodeRequest -> SearchOutput): (r: Result<seq<TranslationResult>>)
    requires forall q :: Answers(search(q), q)
    ensures r.Failure? <==> !Acceptable(options, vmapEmpty, |source|, |targetPrefix|)
    ensures r.Success? ==> |r.value| == |source|
  {
    match CheckArguments(options, vmapEmpty, |source|, |targetPrefix|)
    case Some(message) => Failure(message)
    case None =>
      var q := Request(source, targetPrefix, options, model);
      var out := search(q);
      assert Answers(out, q);
      Success(seq(|source|, i requires 0 <= i < |source| => ResultAt(out, targetPrefix, targetPrefix != [], i, model.toToken)))
  }

  /**
   * Every hypothesis of a prefixed translation starts with the prefix,
   * and goes on with the tokens the search sampled.
   */
  lemma {:induction false} PrefixLeads(source: seq<seq<string>>, targetPrefix: seq<seq<string>>, options: TranslationOptions, model: Model,
                                       vmapEmpty: bool, search: DecodeRequest -> SearchOutput)
    requires forall q :: Answers(search(q), q)
    requires targetPrefix != [] && Translation(source, targetPrefix, options, model, vmapEmpty, search).Success?
    ensures var results := Translation(source, targetPrefix, options, model, vmapEmpty, search).value;
      var out := search(Request(source, targetPrefix, options, model));
      && |results| == 1
      && |results[0].hypotheses| == |out.sampledIds[0]|
      && forall h | 0 <= h < |results[0].hypotheses| ::
           results[0].hypotheses[h] == targetPrefix[0] + Tokens(out.sampledIds[0][h], model.toToken)
  {
    var q := Request(source, targetPrefix, options, model);
    var out := search(q);
    assert Answers(out, q);
    assert CheckArguments(options, vmapEmpty, |source|, |targetPrefix|).None?;
    var results := Translation(source, targetPrefix, options, model, vmapEmpty, search).value;
    assert results[0] == ResultAt(out, targetPrefix, true, 0, model.toToken);
    forall h | 0 <= h < |results[0].hypotheses|
      ensures results[0].hypotheses[h] == targetPrefix[0] + Tokens(out.sampledIds[0][h], model.toToken)
    {
      assert results[0].hypotheses[h] == Hypothesis(out, targetPrefix, true, 0, h, model.toToken);
    }
  }

  /** Without a prefix, hypothesis `h` of sentence `i` is exactly the tokens the search sampled. */
  lemma {:induction false} NoPrefixHypotheses(source: seq<seq<string>>, options: TranslationOptions, model: Model,
                                              vmapEmpty: bool, search: DecodeRequest -> SearchOutput, i: nat)
    requires forall q :: Answers(search(q), q)
    requires Translation(source, [], options, model, vmapEmpty, search).Success? && i < |source|
    ensures var results := Translation(source, [], options, model, vmapEmpty, search).value;
      var out := search(Request(source, [], options, model));
      && |results[i].hypotheses| == |out.sampledIds[i]|
      && forall h | 0 <= h < |out.sampledIds[i]| :: results[i].hypotheses[h] == Tokens(out.sampledIds[i][h], model.toToken)
  {
    var q := Request(source, [], options, model);
    var out := search(q);
    assert Answers(out, q);
    assert CheckArguments(options, vmapEmpty, |source|, 0).None?;
    var results := Translation(source, [], options, model, vmapEmpty, search).value;
    assert results[i] == ResultAt(out, [], false, i, model.toToken);
    forall h | 0 <= h < |out.sampledIds[i]|
      ensures results[i].hypotheses[h] == Tokens(out.sampledIds[i][h], model.toToken)
    {
      assert results[i].hypotheses[h] == Hypothesis(out, [], false, i, h, model.toToken);
    }
  }

  /** The encoder's inputs in the request are the padded id matrix of the source, entry by entry. */
  lemma {:induction false} RequestIds(source: seq<seq<string>>, targetPrefix: seq<seq<string>>, options: TranslationOptions, model: Model,
                                      i: nat, t: nat)
    requires targetPrefix != [] ==> |source| == 1 && |targetPrefix| == 1
    requires i < |source| && t < |source[i]|
    ensures var q := Request(source, targetPrefix, options, model);
      q.maxLength >= |source[i]| && 0 <= Flat(i, q.maxLength, t) < |q.ids|
      && q.ids[Flat(i, q.maxLength, t)] == model.sourceVocab.toId(source[i][t])
  {
    MaxLengthIsMaximum(source);
    PaddedIdsAt(source, MaxLength(source), model.sourceVocab.toId, i, t);
  }

  /** `translate_batch_with_prefix`, step by step. */
  method TranslateBatchWithPrefix(source: seq<seq<string>>, targetPrefix: seq<seq<string>>, options: TranslationOptions,
                                  model: Model, vocabMap: VocabMap.VocabularyMap, search: DecodeRequest -> SearchOutput)
    returns (r: Result<seq<TranslationResult>>)
    requires forall q :: Answers(search(q), q)
    ensures r == Translation(source, targetPrefix, options, model, vocabMap.Empty(), search)
  {
    var batchSize := |source|;
    var withPrefix := targetPrefix != [];
    var check := CheckArguments(options, vocabMap.Empty(), batchSize, |targetPrefix|);
    if check.Some? {
      return Failure(check.value);
    }
    var ids, lengths, maxLength := MakeInputs(source, model.sourceVocab.toId);
    var candidates := [];
    if options.useVmap && !vocabMap.Empty() {
      candidates := model.candidatesOf(source);
    }
    var startToken := model.targetVocab.toId(model.targetVocab.bos);
    var endToken := model.targetVocab.toId(model.targetVocab.eos);
    var startStep := 0;
    var fed, sampleFrom := [], startToken;
    if withPrefix {
      var prefix := targetPrefix[0];
      startStep := |prefix|;
      fed, sampleFrom := ForwardPrefix(prefix, startToken, model.targetVocab.toId);
      PrefixFeeding(prefix, startToken, model.targetVocab.toId, fed, sampleFrom);
      assert fed == ([startToken] + TokenIds(prefix, model.targetVocab.toId))[..|prefix|];
    }
    var search_ := if options.beamSize == 1 then Greedy else Beam(options.beamSize, options.numHypotheses);
    var request := DecodeRequest(ids[..], lengths[..], maxLength, candidates, fed, seq(batchSize, _ => sampleFrom), startStep,
                                 endToken, options.maxDecodingLength, options.minDecodingLength, search_, options.returnAttention);
    assert request == Request(source, targetPrefix, options, model);
    var out := search(request);
    assert Answers(out, request);
    var results := BuildResults(out, targetPrefix, withPrefix, batchSize, model.toToken);
    assert results == seq(|source|, i requires 0 <= i < |source| => ResultAt(out, targetPrefix, withPrefix, i, model.toToken));
    return Success(results);
  }

  /** `translate_batch`: a translation without a target prefix. */
  method TranslateBatch(source: seq<seq<string>>, options: TranslationOptions,
                        model: Model, vocabMap: VocabMap.VocabularyMap, search: DecodeRequest -> SearchOutput)
    returns (r: Result<seq<TranslationResult>>)
    requires forall q :: Answers(search(q), q)
    ensures r == Translation(source, [], options, model, vocabMap.Empty(), search)
  {
    r := TranslateBatchWithPrefix(source, [], options, model, vocabMap, search);
  }

  /** `translate`: one sentence, as a batch of one; its result is the batch's only one. */
  method Translate(tokens: seq<string>, options: TranslationOptions,
                   model: Model, vocabMap: VocabMap.VocabularyMap, search: DecodeRequest -> SearchOutput)
    returns (r: Result<TranslationResult>)
    requires forall q :: Answers(search(q), q)
    ensures var batch := Translation([tokens], [], options, model, vocabMap.Empty(), search);
      && (r.Failure? <==> batch.Failure?)
      && (r.Failure? ==> r.error == batch.error)
      && (r.Success? ==> |batch.value| == 1 && r.value == batch.value[0])
  {
    var batch := TranslateBatch([tokens], options, model, vocabMap, search);
    if batch.Failure? {
      return Failure(batch.error);
    }
    return Success(batch.value[0]);
  }

  /** `translate_with_prefix`: one sentence and its prefix, as a batch of one. */
  method TranslateWithPrefix(source: seq<string>, targetPrefix: seq<string>, options: TranslationOptions,
                             model: Model, vocabMap: VocabMap.VocabularyMap, search: DecodeRequest -> SearchOutput)
    returns (r: Result<TranslationResult>)
    requires forall q :: Answers(search(q), q)
    ensures var batch := Translation([source], [targetPrefix], options, model, vocabMap.Empty(), search);
      && (r.Failure? <==> batch.Failure?)
      && (r.Failure? ==> r.error == batch.error)
      && (r.Success? ==> |batch.value| == 1 && r.value == batch.value[0])
  {
    var batch := TranslateBatchWithPrefix([source], [targetPrefix], options, model, vocabMap, search);
    if batch.Failure? {
      return Failure(batch.error);
    }
    return Success(batch.value[0]);
  }
}
