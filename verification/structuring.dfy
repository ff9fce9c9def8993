/** The structuring-call wrapper `analyze_recipe_with_gemini`: a bounded
    retry around one call to the language model, whose reply is cleaned of
    code fences and decoded as JSON. The model call and the JSON decoder are
    parameters; the prompt's wording is not modelled. */
module Structuring {
  import opened Wrappers
  import opened Text
  import opened Json

  /** `stop_after_attempt(3)`. */
  const MaxAttempts: nat := 3

  /** `wait_exponential(multiplier=1, min=4, max=10)`. */
  const WaitMultiplier: nat := 1
  const MinWait: nat := 4
  const MaxWait: nat := 10

  /** The model call: the text to analyse and the attempt number (from 1) to
      the reply text, or `None` when the call raises. */
  type Generate = (string, nat) -> Option<string>

  /** `json.loads`: `None` when the text is not JSON. */
  type Decode = string -> Option<Json>

  /** The JSON code-fence opener the reply is cleaned of. */
  const JsonFence: string := "```json"

  /** `text.strip().replace("```json", "").replace("```", "")`. */
  function Clean(reply: string): (r: string)
    // No code fence survives the cleaning.
    ensures !Contains(r, Fence)
    // A reply without backticks and without surrounding whitespace passes
    // through unchanged.
    ensures (forall k :: 0 <= k < |reply| ==> reply[k] != '`')
            && (reply == [] || (!IsSpace(reply[0]) && !IsSpace(reply[|reply| - 1])))
            ==> r == reply
  {
    var stripped := Strip(reply);
    RemoveFencesLeavesNone(RemoveAll(stripped, JsonFence));
    PlainReplyUnchanged(reply);
    RemoveAll(RemoveAll(stripped, JsonFence), Fence)
  }

  lemma PlainReplyUnchanged(reply: string)
    ensures (forall k :: 0 <= k < |reply| ==> reply[k] != '`')
            && (reply == [] || (!IsSpace(reply[0]) && !IsSpace(reply[|reply| - 1])))
            ==> RemoveAll(RemoveAll(Strip(reply), JsonFence), Fence) == reply
  {
    if (forall k :: 0 <= k < |reply| ==> reply[k] != '`')
       && (reply == [] || (!IsSpace(reply[0]) && !IsSpace(reply[|reply| - 1]))) {
      NoBacktickNoFence(reply, JsonFence);
      RemoveAllAbsent(reply, JsonFence);
      NoBacktickNoFence(reply, Fence);
      RemoveAllAbsent(reply, Fence);
    }
  }

  lemma {:induction false} NoBacktickNoFence(s: string, p: string)
    requires |p| > 0 && p[0] == '`'
    requires forall k :: 0 <= k < |s| ==> s[k] != '`'
    ensures !Contains(s, p)
    decreases |s|
  {
    if |s| > 0 {
      assert s[0] != p[0];
      assert !StartsWith(s, p) by {
        if |p| <= |s| { assert s[..|p|][0] == s[0]; }
      }
      NoBacktickNoFence(s[1..], p);
    }
  }

  function Pow2(n: nat): (r: nat)
    ensures r >= 1
  {
    if n == 0 then 1 else 2 * Pow2(n - 1)
  }

  /** The pause after failed attempt `attempt`: `multiplier * 2 ** (attempt - 1)`
      clamped to `[min, max]`. */
  function BackoffWait(attempt: nat): (w: nat)
    requires attempt >= 1
    ensures MinWait <= w <= MaxWait
    // Within the range the exponential itself is used; outside it, the
    // nearer bound.
    ensures MinWait <= WaitMultiplier * Pow2(attempt - 1) <= MaxWait ==> w == WaitMultiplier * Pow2(attempt - 1)
    ensures WaitMultiplier * Pow2(attempt - 1) <= MinWait ==> w == MinWait
    ensures WaitMultiplier * Pow2(attempt - 1) >= MaxWait ==> w == MaxWait
  {
    var raw := WaitMultiplier * Pow2(attempt - 1);
    if raw < MinWait then MinWait else if raw > MaxWait then MaxWait else raw
  }

  /** One attempt: call the model, clean its reply and decode it. `None`
      stands for every exception the attempt can raise. */
  function Attempt(text: string, attempt: nat, generate: Generate, decode: Decode): Option<Json> {
    match generate(text, attempt)
    case None => None
    case Some(reply) => decode(Clean(reply))
  }

  /** The outcome of the wrapper, as a reference: the value of the first
      successful attempt among `from .. MaxAttempts`, with its number, or
      `None` when every one of them failed. */
  function FirstSuccess(text: string, from: nat, generate: Generate, decode: Decode): (r: Option<(Json, nat)>)
    requires from >= 1
    ensures r.Some? ==> && from <= r.value.1 <= MaxAttempts
                        && Attempt(text, r.value.1, generate, decode) == Some(r.value.0)
                        && forall k :: from <= k < r.value.1 ==> Attempt(text, k, generate, decode).None?
    ensures r.None? <==> forall k :: from <= k <= MaxAttempts ==> Attempt(text, k, generate, decode).None?
    decreases MaxAttempts + 1 - from
  {
    if from > MaxAttempts then None
    else
      match Attempt(text, from, generate, decode)
      case Some(v) => Some((v, from))
      case None => FirstSuccess(text, from + 1, generate, decode)
  }

  /** The structuring call with its retry policy. `calls` is how many times
      the model was called; `waits` are the pauses taken between attempts. */
  method Structure(text: string, generate: Generate, decode: Decode)
    returns (r: Option<Json>, calls: nat, waits: seq<nat>)
    // The first successful attempt's value is returned, and no further call
    // is made after it.
    ensures r.Some? ==> && 1 <= calls <= MaxAttempts
                        && Attempt(text, calls, generate, decode) == r
                        && forall k :: 1 <= k < calls ==> Attempt(text, k, generate, decode).None?
    // Failure propagates only after exactly three failed attempts.
    ensures r.None? ==> && calls == MaxAttempts
                        && forall k :: 1 <= k <= MaxAttempts ==> Attempt(text, k, generate, decode).None?
    // One pause between consecutive attempts, each within the clamp.
    ensures |waits| == calls - 1
    ensures forall k :: 0 <= k < |waits| ==> MinWait <= waits[k] <= MaxWait
    // The pause before attempt k + 2 follows failed attempt k + 1; with at
    // most three attempts the exponential never climbs above the minimum.
    ensures forall k :: 0 <= k < |waits| ==> waits[k] == BackoffWait(k + 1)
    ensures forall k :: 0 <= k < |waits| ==> waits[k] == MinWait
    // The method agrees with the reference outcome.
    ensures FirstSuccess(text, 1, generate, decode) == if r.Some? then Some((r.value, calls)) else None
  {
    r := None;
    calls := 0;
    waits := [];
    while calls < MaxAttempts && r.None?
      invariant calls <= MaxAttempts
      invariant |waits| == if calls == 0 then 0 else calls - 1
      invariant forall k :: 0 <= k < |waits| ==> MinWait <= waits[k] <= MaxWait
      invariant forall k :: 0 <= k < |waits| ==> waits[k] == BackoffWait(k + 1)
      invariant forall k :: 0 <= k < |waits| ==> waits[k] == MinWait
      invariant r.Some? ==> calls >= 1 && Attempt(text, calls, generate, decode) == r
      invariant forall k :: 1 <= k <= calls && (r.None? || k < calls) ==>
                  Attempt(text, k, generate, decode).None?
    {
      if calls > 0 {
        waits := waits + [BackoffWait(calls)];
      }
      calls := calls + 1;
      r := Attempt(text, calls, generate, decode);
    }
  }
}
