/** The per-chunk retry and timeout policy of `translate_text`. The backend
    call is replaced by a script: the outcomes of the successive backend
    invocations, read front to back. */
module Translator {
  import opened Common

  /** What one backend invocation did. A call that returned is `Slow` when
      its measured duration exceeded `TIMEOUT` seconds, `Fast` otherwise:
      a call taking exactly `TIMEOUT` seconds is in time. */
  datatype Attempt = Raised | Slow(content: string) | Fast(content: string)

  /** How a `translate_text` call ended: it returned a value (the
      translation, the sentinel, or `None` for the soft timeout) after a
      number of backend invocations, or the script ran out while it was
      still retrying (the process was stopped mid-call). */
  datatype CallEnd = Returned(result: Option<string>, attempts: nat) | ScriptEnded

  /** The number of invocations at the front of the script that raised. */
  function LeadingRaised(script: seq<Attempt>): (k: nat)
    ensures k <= |script|
    ensures forall j :: 0 <= j < k ==> script[j].Raised?
    ensures k < |script| ==> !script[k].Raised?
  {
    if |script| == 0 || !script[0].Raised? then 0
    else 1 + LeadingRaised(script[1..])
  }

  /** One `translate_text` call with a budget of `retries` attempts. */
  function TranslateText(script: seq<Attempt>, retries: int): (r: CallEnd)
    decreases retries
    // It never invokes the backend more often than the budget allows, and
    // at least once when the budget is positive.
    ensures r.Returned? ==> r.attempts <= |script|
    ensures r.Returned? ==> if retries <= 0 then r.attempts == 0 else 1 <= r.attempts <= retries
    // `None` comes only from a slow attempt, and any other string is the
    // content of the last, fast, attempt: a slow answer's content is dropped.
    ensures r.Returned? && r.result.None? ==> 1 <= r.attempts && script[r.attempts - 1].Slow?
    ensures r.Returned? && r.result.Some? && r.result.value != SENTINEL ==>
      1 <= r.attempts && script[r.attempts - 1] == Fast(r.result.value)
  {
    if retries <= 0 then Returned(Some(SENTINEL), 0)
    else if |script| == 0 then ScriptEnded
    else match script[0]
      case Raised =>
        (match TranslateText(script[1..], retries - 1)
         case Returned(v, a) => Returned(v, a + 1)
         case ScriptEnded => ScriptEnded)
      case Slow(_) => Returned(None, 1)
      case Fast(c) => Returned(Some(c), 1)
  }

  /** The retry policy of one call, stated through the first attempt that
      does not raise (`LeadingRaised` attempts raise before it). */
  lemma {:induction false} RetryPolicy(script: seq<Attempt>, retries: int)
    ensures var r := TranslateText(script, retries); var k := LeadingRaised(script);
      // Every attempt raised: the sentinel, after exactly `retries` invocations.
      && (k >= retries ==> r == Returned(Some(SENTINEL), if retries <= 0 then 0 else retries))
      // The call is cut off only when the script ends before a non-raising
      // attempt and before the budget is used up.
      && (r.ScriptEnded? <==> k == |script| < retries)
      // The first attempt that does not raise ends the call: a slow one
      // yields `None`, a fast one yields its content unchanged.
      && (k < retries && k < |script| && script[k].Slow? ==> r == Returned(None, k + 1))
      && (k < retries && k < |script| && script[k].Fast? ==> r == Returned(Some(script[k].content), k + 1))
    decreases retries
  {
    if retries > 0 && |script| > 0 && script[0].Raised? {
      RetryPolicy(script[1..], retries - 1);
    }
  }

  /** A call's result depends only on the invocations it made: any script
      that agrees on those gives the same result. */
  lemma {:induction false} TranslateDependsOnPrefix(s: seq<Attempt>, p: seq<Attempt>, retries: int)
    requires TranslateText(s, retries).Returned?
    requires TranslateText(s, retries).attempts <= |p|
    requires p[..TranslateText(s, retries).attempts] == s[..TranslateText(s, retries).attempts]
    ensures TranslateText(p, retries) == TranslateText(s, retries)
    decreases retries
  {
    var a := TranslateText(s, retries).attempts;
    if retries > 0 && s[0].Raised? {
      assert p[0] == p[..a][0] == s[..a][0] == s[0];
      var s', p' := s[1..], p[1..];
      assert p'[..a - 1] == p[..a][1..] == s[..a][1..] == s'[..a - 1];
      TranslateDependsOnPrefix(s', p', retries - 1);
    } else if retries > 0 {
      assert p[0] == p[..a][0] == s[..a][0] == s[0];
    }
  }
}
