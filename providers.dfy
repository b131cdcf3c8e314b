// BaseTranslationProvider (src/providers/base.ts): texts are cut into batches,
// each batch is tried with exponential backoff, and a batch that still fails
// yields the texts themselves, marked with the error.  A concrete provider's
// network call is the oracle `translate`: for each call (its texts, languages,
// batch number and attempt number) it returns results or the message of the
// error it throws.  Sleeping is recorded, not performed.
module Providers {
  import opened Collections
  import opened Types

  datatype Call = Call(texts: seq<string>, from: string, to: string, batch: nat, attempt: nat)

  type Translate = Call -> Result<seq<TranslationResult>, string>

  const DefaultBatchSize: nat := 50
  const DefaultRetries: nat := 3
  /** Milliseconds of the first backoff. */
  const BackoffUnit: nat := 1000

  /** `config.batchSize || 50` */
  function BatchSize(c: ApiConfig): (r: nat)
    ensures r > 0
    ensures c.batchSize.Some? && c.batchSize.value != 0 ==> r == c.batchSize.value
    ensures c.batchSize.None? || c.batchSize.value == 0 ==> r == DefaultBatchSize
  {
    if c.batchSize.Some? && c.batchSize.value != 0 then c.batchSize.value else DefaultBatchSize
  }

  /** `config.retries || 3` */
  function MaxRetries(c: ApiConfig): (r: nat)
    ensures r > 0
    ensures c.retries.Some? && c.retries.value != 0 ==> r == c.retries.value
    ensures c.retries.None? || c.retries.value == 0 ==> r == DefaultRetries
  {
    if c.retries.Some? && c.retries.value != 0 then c.retries.value else DefaultRetries
  }

  /** A rate limit is set (and not zero). */
  predicate RateLimited(c: ApiConfig) {
    c.rateLimit.Some? && c.rateLimit.value != 0.0
  }

  function Pow2(k: nat): (r: nat)
    ensures r >= 1
  {
    if k == 0 then 1 else 2 * Pow2(k - 1)
  }

  // --------------------------------------------------------------- retrying

  /** What translateWithRetry came to, how many calls it made and the backoffs (ms) it waited. */
  datatype Retried = Retried(outcome: Result<seq<TranslationResult>, string>, calls: nat, delays: seq<nat>)

  /**
   * translateWithRetry from attempt `retryCount`: the first successful call is
   * the outcome; after a failure another call follows, `2^retryCount` seconds
   * later, while `retryCount < maxRetries`; the last failure is rethrown.
   */
  function WithRetry(translate: Translate, texts: seq<string>, from: string, to: string, batch: nat, retryCount: nat, maxRetries: nat): Retried
    decreases maxRetries - retryCount
  {
    match translate(Call(texts, from, to, batch, retryCount))
    case Ok(results) => Retried(Ok(results), 1, [])
    case Err(error) =>
      if retryCount < maxRetries then
        var rest := WithRetry(translate, texts, from, to, batch, retryCount + 1, maxRetries);
        Retried(rest.outcome, rest.calls + 1, [Pow2(retryCount) * BackoffUnit] + rest.delays)
      else
        Retried(Err(error), 1, [])
  }

  /**
   * translateWithRetry makes at least one call and at most one per remaining
   * retry plus one; every call but the last failed, the last call's answer is
   * the outcome, and a failed outcome used up every retry; before retry k it
   * waited 2^k seconds.
   */
  lemma {:induction false} RetryLaws(translate: Translate, texts: seq<string>, from: string, to: string, batch: nat, retryCount: nat, maxRetries: nat)
    decreases maxRetries - retryCount
    ensures var r := WithRetry(translate, texts, from, to, batch, retryCount, maxRetries);
      1 <= r.calls && (retryCount <= maxRetries ==> r.calls <= maxRetries - retryCount + 1)
      && |r.delays| == r.calls - 1
      && (forall k :: 0 <= k < |r.delays| ==> r.delays[k] == Pow2(retryCount + k) * BackoffUnit)
      && (forall a :: retryCount <= a < retryCount + r.calls - 1 ==> translate(Call(texts, from, to, batch, a)).Err?)
      && r.outcome == translate(Call(texts, from, to, batch, retryCount + r.calls - 1))
      && (r.outcome.Err? && retryCount <= maxRetries ==> r.calls == maxRetries - retryCount + 1)
  {
    if translate(Call(texts, from, to, batch, retryCount)).Err? && retryCount < maxRetries {
      RetryLaws(translate, texts, from, to, batch, retryCount + 1, maxRetries);
    }
  }

  /** From the first attempt, translateWithRetry calls the provider at most `maxRetries + 1` times. */
  lemma RetryBound(translate: Translate, texts: seq<string>, from: string, to: string, batch: nat, maxRetries: nat)
    ensures var r := WithRetry(translate, texts, from, to, batch, 0, maxRetries);
      1 <= r.calls <= maxRetries + 1
      && (r.outcome.Err? <==> forall k :: 0 <= k <= maxRetries ==> translate(Call(texts, from, to, batch, k)).Err?)
  {
    var r := WithRetry(translate, texts, from, to, batch, 0, maxRetries);
    RetryLaws(translate, texts, from, to, batch, 0, maxRetries);
    if r.outcome.Err? {
      forall k | 0 <= k <= maxRetries ensures translate(Call(texts, from, to, batch, k)).Err? {
        if k != r.calls - 1 {
          assert k < r.calls - 1;
        }
      }
    }
  }

  // ---------------------------------------------------------------- batching

  /** `texts.slice(i, i + size)` for i = start, start + size, ... */
  function Batches(texts: seq<string>, size: nat, start: nat): seq<seq<string>>
    requires size > 0
    decreases |texts| - start
  {
    if start >= |texts| then []
    else
      var end := if start + size < |texts| then start + size else |texts|;
      [texts[start..end]] + Batches(texts, size, start + size)
  }

  /** The batches from `start` are the first batch followed by the batches after it. */
  lemma BatchesAt(texts: seq<string>, size: nat, start: nat, i: nat)
    requires size > 0 && start < |texts|
    ensures |Batches(texts, size, start)| == 1 + |Batches(texts, size, start + size)|
    ensures Batches(texts, size, start)[0] == texts[start..BatchEnd(texts, size, start)]
    ensures 0 < i < |Batches(texts, size, start)| ==> Batches(texts, size, start)[i] == Batches(texts, size, start + size)[i - 1]
  {
  }

  /** Every batch holds at least one and at most `size` texts, and all but the last exactly `size`. */
  predicate Shaped(bs: seq<seq<string>>, size: nat) {
    (forall k :: 0 <= k < |bs| ==> 0 < |bs[k]| <= size) && (forall k :: 0 <= k < |bs| - 1 ==> |bs[k]| == size)
  }

  /** Batches of `size` texts are shaped so. */
  lemma {:induction false} BatchesShape(texts: seq<string>, size: nat, start: nat)
    requires size > 0
    decreases |texts| - start
    ensures Shaped(Batches(texts, size, start), size)
  {
    if start < |texts| {
      var bs := Batches(texts, size, start);
      var tail := Batches(texts, size, start + size);
      BatchesShape(texts, size, start + size);
      assert tail != [] ==> start + size < |texts|;
      forall k | 0 <= k < |bs|
        ensures 0 < |bs[k]| <= size && (k < |bs| - 1 ==> |bs[k]| == size)
      {
        if k > 0 {
          assert bs[k] == tail[k - 1];
          assert 0 < |tail[k - 1]| <= size;
          assert k - 1 < |tail| - 1 ==> |tail[k - 1]| == size;
        } else {
          var end := if start + size < |texts| then start + size else |texts|;
          assert bs[0] == texts[start..end];
          assert |bs[0]| == end - start;
        }
      }
    }
  }

  /** The batches, one after another, are the texts. */
  lemma {:induction false} BatchesCover(texts: seq<string>, size: nat, start: nat)
    requires size > 0 && start <= |texts|
    decreases |texts| - start
    ensures Flatten(Batches(texts, size, start)) == texts[start..]
  {
    if start < |texts| {
      var end := if start + size < |texts| then start + size else |texts|;
      FlattenCons(texts[start..end], Batches(texts, size, start + size));
      if start + size < |texts| {
        BatchesCover(texts, size, start + size);
      }
      assert texts[start..] == texts[start..end] + texts[end..];
    }
  }

  /** One result per text of the batch: the text itself, carrying the error. */
  function Fallback(batch: seq<string>, error: string): (r: seq<TranslationResult>)
    ensures |r| == |batch|
    ensures forall k :: 0 <= k < |r| ==> r[k].original == batch[k] && r[k].translated == batch[k] && r[k].error == Some(error)
  {
    seq(|batch|, k requires 0 <= k < |batch| => TranslationResult(batch[k], batch[k], Api, Some(error)))
  }

  /** A batch's contribution: the results of its retried call, or the fallback results. */
  function BatchOutcome(translate: Translate, batch: seq<string>, from: string, to: string, number: nat, maxRetries: nat): seq<TranslationResult> {
    match WithRetry(translate, batch, from, to, number, 0, maxRetries).outcome
    case Ok(results) => results
    case Err(error) => Fallback(batch, error)
  }

  /** The end of the batch that starts at `start`. */
  function BatchEnd(texts: seq<string>, size: nat, start: nat): (r: nat)
    requires start < |texts|
    ensures start < r <= |texts|
  {
    if start + size < |texts| && size > 0 then start + size else |texts|
  }

  /**
   * translateBatch from position `start`, whose batch has number `number`: each
   * batch's results or fallback results, in batch order.
   */
  function ResultsFrom(c: ApiConfig, translate: Translate, texts: seq<string>, from: string, to: string, start: nat, number: nat): seq<TranslationResult>
    decreases |texts| - start
  {
    if start >= |texts| then []
    else
      var end := BatchEnd(texts, BatchSize(c), start);
      BatchOutcome(translate, texts[start..end], from, to, number, MaxRetries(c))
      + ResultsFrom(c, translate, texts, from, to, start + BatchSize(c), number + 1)
  }

  /** translateBatch */
  function BatchResults(c: ApiConfig, translate: Translate, texts: seq<string>, from: string, to: string): seq<TranslationResult> {
    ResultsFrom(c, translate, texts, from, to, 0, 0)
  }

  /** The contributions of the batches `bs`, numbered from `number`. */
  function Outcomes(translate: Translate, bs: seq<seq<string>>, from: string, to: string, number: nat, maxRetries: nat): (r: seq<seq<TranslationResult>>)
    ensures |r| == |bs|
  {
    if bs == [] then []
    else [BatchOutcome(translate, bs[0], from, to, number, maxRetries)] + Outcomes(translate, bs[1..], from, to, number + 1, maxRetries)
  }

  /** translateBatch's results are the contributions of the batches, one after another. */
  lemma {:induction false} ResultsFromBatches(c: ApiConfig, translate: Translate, texts: seq<string>, from: string, to: string, start: nat, number: nat)
    decreases |texts| - start
    ensures ResultsFrom(c, translate, texts, from, to, start, number)
      == Flatten(Outcomes(translate, Batches(texts, BatchSize(c), start), from, to, number, MaxRetries(c)))
  {
    var size := BatchSize(c);
    if start < |texts| {
      var bs := Batches(texts, size, start);
      var tail := Batches(texts, size, start + size);
      assert bs[1..] == tail;
      ResultsFromBatches(c, translate, texts, from, to, start + size, number + 1);
      var os := Outcomes(translate, bs, from, to, number, MaxRetries(c));
      FlattenCons(os[0], Outcomes(translate, tail, from, to, number + 1, MaxRetries(c)));
    }
  }

  /** translateBatch from a text that remains: its batch's contribution, then the rest. */
  lemma ResultsFromStep(c: ApiConfig, translate: Translate, texts: seq<string>, from: string, to: string, start: nat, number: nat)
    requires start < |texts|
    ensures ResultsFrom(c, translate, texts, from, to, start, number)
      == BatchOutcome(translate, texts[start..BatchEnd(texts, BatchSize(c), start)], from, to, number, MaxRetries(c))
      + ResultsFrom(c, translate, texts, from, to, start + BatchSize(c), number + 1)
  {
  }

  /** The successful retried call of a batch. */
  predicate Succeeded(translate: Translate, batch: seq<string>, from: string, to: string, number: nat, maxRetries: nat) {
    WithRetry(translate, batch, from, to, number, 0, maxRetries).outcome.Ok?
  }

  /** The numbers of the batches from `start` after which translateBatch pauses for the rate limit. */
  function PausesFrom(c: ApiConfig, translate: Translate, texts: seq<string>, from: string, to: string, start: nat, number: nat): seq<nat>
    decreases |texts| - start
  {
    if start >= |texts| then []
    else
      var size := BatchSize(c);
      var batch := texts[start..BatchEnd(texts, size, start)];
      (if RateLimited(c) && start + size < |texts| && Succeeded(translate, batch, from, to, number, MaxRetries(c)) then [number] else [])
      + PausesFrom(c, translate, texts, from, to, start + size, number + 1)
  }

  /** The pauses from a text that remains: the pause after its batch, if any, then the rest. */
  lemma PausesFromStep(c: ApiConfig, translate: Translate, texts: seq<string>, from: string, to: string, start: nat, number: nat)
    requires start < |texts|
    ensures var batch := texts[start..BatchEnd(texts, BatchSize(c), start)];
      PausesFrom(c, translate, texts, from, to, start, number)
      == (if RateLimited(c) && start + BatchSize(c) < |texts| && Succeeded(translate, batch, from, to, number, MaxRetries(c)) then [number] else [])
      + PausesFrom(c, translate, texts, from, to, start + BatchSize(c), number + 1)
  {
  }

  /** One turn of translateBatch's loop keeps what is done plus what remains equal to the whole. */
  lemma BatchStep(c: ApiConfig, translate: Translate, texts: seq<string>, from: string, to: string, start: nat, number: nat,
                  results: seq<TranslationResult>, pausedAfter: seq<nat>, allResults: seq<TranslationResult>, allPauses: seq<nat>)
    requires start < |texts|
    requires results + ResultsFrom(c, translate, texts, from, to, start, number) == allResults
    requires pausedAfter + PausesFrom(c, translate, texts, from, to, start, number) == allPauses
    ensures var size := BatchSize(c);
      var batch := texts[start..BatchEnd(texts, size, start)];
      var maxRetries := MaxRetries(c);
      && (results + BatchOutcome(translate, batch, from, to, number, maxRetries)) + ResultsFrom(c, translate, texts, from, to, start + size, number + 1) == allResults
      && (pausedAfter + (if Succeeded(translate, batch, from, to, number, maxRetries) && RateLimited(c) && start + size < |texts| then [number] else []))
         + PausesFrom(c, translate, texts, from, to, start + size, number + 1) == allPauses
  {
    var size := BatchSize(c);
    var batch := texts[start..BatchEnd(texts, size, start)];
    var maxRetries := MaxRetries(c);
    ResultsFromStep(c, translate, texts, from, to, start, number);
    Advance(results, BatchOutcome(translate, batch, from, to, number, maxRetries), ResultsFrom(c, translate, texts, from, to, start + size, number + 1), allResults);
    PausesFromStep(c, translate, texts, from, to, start, number);
    var pause: seq<nat> := if Succeeded(translate, batch, from, to, number, maxRetries) && RateLimited(c) && start + size < |texts| then [number] else [];
    Advance(pausedAfter, pause, PausesFrom(c, translate, texts, from, to, start + size, number + 1), allPauses);
  }

  /** A pause follows exactly the successful batches that are not the last, and only when a rate limit is set. */
  lemma {:induction false} PausesFromIff(c: ApiConfig, translate: Translate, texts: seq<string>, from: string, to: string, start: nat, number: nat, k: nat)
    decreases |texts| - start, 1
    ensures var bs := Batches(texts, BatchSize(c), start);
      k in PausesFrom(c, translate, texts, from, to, start, number)
      <==> number <= k < number + |bs| - 1 && RateLimited(c) && Succeeded(translate, bs[k - number], from, to, k, MaxRetries(c))
  {
    if start >= |texts| {
      assert Batches(texts, BatchSize(c), start) == [];
    } else if k < number {
      PausesFromBelow(c, translate, texts, from, to, start, number, k);
    } else if k == number {
      PausesFromIffFirst(c, translate, texts, from, to, start, number);
    } else {
      PausesFromIffLater(c, translate, texts, from, to, start, number, k);
    }
  }

  /** The case of the first batch from `start`. */
  lemma PausesFromIffFirst(c: ApiConfig, translate: Translate, texts: seq<string>, from: string, to: string, start: nat, number: nat)
    requires start < |texts|
    ensures var bs := Batches(texts, BatchSize(c), start);
      number in PausesFrom(c, translate, texts, from, to, start, number)
      <==> 1 < |bs| && RateLimited(c) && Succeeded(translate, bs[0], from, to, number, MaxRetries(c))
  {
    BatchesAt(texts, BatchSize(c), start, 0);
    PausesFromFirst(c, translate, texts, from, to, start, number);
  }

  /** The case of a later batch, from the batches after the first. */
  lemma {:induction false} PausesFromIffLater(c: ApiConfig, translate: Translate, texts: seq<string>, from: string, to: string, start: nat, number: nat, k: nat)
    requires start < |texts| && k > number
    decreases |texts| - start, 0
    ensures var bs := Batches(texts, BatchSize(c), start);
      k in PausesFrom(c, translate, texts, from, to, start, number)
      <==> k < number + |bs| - 1 && RateLimited(c) && Succeeded(translate, bs[k - number], from, to, k, MaxRetries(c))
  {
    var size := BatchSize(c);
    BatchesAt(texts, size, start, k - number);
    PausesFromLater(c, translate, texts, from, to, start, number, k);
    PausesFromIff(c, translate, texts, from, to, start + size, number + 1, k);
  }

  /** Batch `number` itself is paused after exactly when it succeeded, a rate limit is set and more texts follow. */
  lemma PausesFromFirst(c: ApiConfig, translate: Translate, texts: seq<string>, from: string, to: string, start: nat, number: nat)
    requires start < |texts|
    ensures number in PausesFrom(c, translate, texts, from, to, start, number)
      <==> (RateLimited(c) && start + BatchSize(c) < |texts|
        && Succeeded(translate, texts[start..BatchEnd(texts, BatchSize(c), start)], from, to, number, MaxRetries(c)))
  {
    PausesFromBelow(c, translate, texts, from, to, start + BatchSize(c), number + 1, number);
  }

  /** A later batch number is paused after in the whole exactly when it is in the rest. */
  lemma PausesFromLater(c: ApiConfig, translate: Translate, texts: seq<string>, from: string, to: string, start: nat, number: nat, k: nat)
    requires start < |texts| && k > number
    ensures k in PausesFrom(c, translate, texts, from, to, start, number)
      <==> k in PausesFrom(c, translate, texts, from, to, start + BatchSize(c), number + 1)
  {
  }

  /** Batch numbers before `number` are never among the pauses counted from it. */
  lemma {:induction false} PausesFromBelow(c: ApiConfig, translate: Translate, texts: seq<string>, from: string, to: string, start: nat, number: nat, k: nat)
    requires k < number
    decreases |texts| - start
    ensures k !in PausesFrom(c, translate, texts, from, to, start, number)
  {
    if start < |texts| {
      PausesFromBelow(c, translate, texts, from, to, start + BatchSize(c), number + 1, k);
    }
  }

  /** The provider answers every successful call with one result per text. */
  ghost predicate OneResultEach(translate: Translate) {
    forall call :: translate(call).Ok? ==> |translate(call).value| == |call.texts|
  }

  /** With such a provider translateBatch returns exactly one result per text. */
  lemma {:induction false} ResultsFromLength(c: ApiConfig, translate: Translate, texts: seq<string>, from: string, to: string, start: nat, number: nat)
    requires OneResultEach(translate) && start <= |texts|
    decreases |texts| - start
    ensures |ResultsFrom(c, translate, texts, from, to, start, number)| == |texts| - start
  {
    if start < |texts| {
      var end := BatchEnd(texts, BatchSize(c), start);
      var r := WithRetry(translate, texts[start..end], from, to, number, 0, MaxRetries(c));
      RetryLaws(translate, texts[start..end], from, to, number, 0, MaxRetries(c));
      if r.outcome.Ok? {
        assert translate(Call(texts[start..end], from, to, number, r.calls - 1)).Ok?;
      }
      if start + BatchSize(c) <= |texts| {
        ResultsFromLength(c, translate, texts, from, to, start + BatchSize(c), number + 1);
      }
    }
  }

  /** A batch whose every attempt fails contributes its texts unchanged, each with the last error. */
  lemma FailedBatch(translate: Translate, batch: seq<string>, from: string, to: string, number: nat, maxRetries: nat)
    requires forall k :: 0 <= k <= maxRetries ==> translate(Call(batch, from, to, number, k)).Err?
    ensures var r := BatchOutcome(translate, batch, from, to, number, maxRetries);
      var error := translate(Call(batch, from, to, number, maxRetries)).error;
      |r| == |batch| && forall k :: 0 <= k < |r| ==> r[k] == TranslationResult(batch[k], batch[k], Api, Some(error))
  {
    RetryBound(translate, batch, from, to, number, maxRetries);
    RetryLaws(translate, batch, from, to, number, 0, maxRetries);
  }

  /** `validateConfig`: an error exactly when there is neither a key nor a baidu block. */
  function ValidateConfig(name: string, c: ApiConfig): (r: Result<(), string>)
    ensures r.Err? <==> !Truthy(c.key) && c.baidu.None?
    ensures r.Err? ==> r.error == name + MissingKeySuffix
  {
    if !Truthy(c.key) && c.baidu.None? then Err(name + MissingKeySuffix) else Ok(())
  }

  const MissingKeySuffix: string := " 需要 API 密钥"

  /** The base class keeps every language code as it is. */
  function ProviderLanguageCode(code: string, provider: string): (r: string)
    ensures r == code
  {
    code
  }

  // ---------------------------------------------------------------- provider

  /** A provider: its name, its configuration and its network call. */
  class TranslationProvider {
    const name: string
    const config: ApiConfig
    const translate: Translate

    constructor(name: string, config: ApiConfig, translate: Translate)
      ensures this.name == name && this.config == config && this.translate == translate
    {
      this.name := name;
      this.config := config;
      this.translate := translate;
    }

    /** One batch inside translateBatch's try block: its results, or the fallback when the retries give up. */
    method TryBatch(batch: seq<string>, from: string, to: string, number: nat) returns (contribution: seq<TranslationResult>, succeeded: bool)
      ensures contribution == BatchOutcome(translate, batch, from, to, number, MaxRetries(config))
      ensures succeeded == Succeeded(translate, batch, from, to, number, MaxRetries(config))
    {
      var attempt := WithRetry(translate, batch, from, to, number, 0, MaxRetries(config));
      match attempt.outcome {
        case Ok(rs) =>
          contribution, succeeded := rs, true;
        case Err(error) =>
          contribution, succeeded := Fallback(batch, error), false;
      }
    }

    /**
     * translateBatch: the batches are processed in order; after each successful
     * batch except the last, the rate limit (when set) makes it pause.
     */
    method TranslateBatch(texts: seq<string>, from: string, to: string) returns (results: seq<TranslationResult>, pausedAfter: seq<nat>)
      ensures results == BatchResults(config, translate, texts, from, to)
      ensures pausedAfter == PausesFrom(config, translate, texts, from, to, 0, 0)
    {
      var size := BatchSize(config);
      results := [];
      pausedAfter := [];
      var i: nat := 0;
      var number: nat := 0;
      ghost var allResults := BatchResults(config, translate, texts, from, to);
      ghost var allPauses := PausesFrom(config, translate, texts, from, to, 0, 0);
      while i < |texts|
        invariant results + ResultsFrom(config, translate, texts, from, to, i, number) == allResults
        invariant pausedAfter + PausesFrom(config, translate, texts, from, to, i, number) == allPauses
        decreases |texts| - i
      {
        var batch := texts[i..BatchEnd(texts, size, i)];
        var contribution, succeeded := TryBatch(batch, from, to, number);
        BatchStep(config, translate, texts, from, to, i, number, results, pausedAfter, allResults, allPauses);
        results := results + contribution;
        var pause: seq<nat> := if succeeded && RateLimited(config) && i + size < |texts| then [number] else [];
        pausedAfter := pausedAfter + pause;
        i := i + size;
        number := number + 1;
      }
    }
  }
}
