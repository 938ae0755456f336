/** The command-line entry point: its own copy of `translate_text` (a loop
    over the retry budget), its own `batch_translate` (which leaves the
    progress file alone), and `translate_file`, which rewrites full-width
    spaces in the result, writes it, and then deletes the progress file. */
module Cli {
  import opened Common
  import opened Translator
  import opened Batch

  /** U+3000 IDEOGRAPHIC SPACE, the full-width space. */
  const IDEOGRAPHIC_SPACE: char := '\U{3000}'

  /** `translate_text`, as the loop `for attempt in range(retries)` it is:
      the same policy as the pure definition. */
  method TranslateText(script: seq<Attempt>, retries: int) returns (r: CallEnd)
    ensures r == Translator.TranslateText(script, retries)
    ensures r.Returned? && retries >= 1 ==> 1 <= r.attempts <= retries
    ensures LeadingRaised(script) >= retries ==>
      r == Returned(Some(SENTINEL), if retries <= 0 then 0 else retries)
  {
    RetryPolicy(script, retries);
    var attempt := 0;
    while attempt < retries
      invariant 0 <= attempt <= |script|
      invariant attempt <= if retries <= 0 then 0 else retries
      invariant forall j :: 0 <= j < attempt ==> script[j].Raised?
    {
      if attempt == |script| {
        return ScriptEnded;
      }
      if script[attempt].Slow? {
        return Returned(None, attempt + 1);
      } else if script[attempt].Fast? {
        return Returned(Some(script[attempt].content), attempt + 1);
      }
      attempt := attempt + 1;
    }
    // Every attempt made so far raised, and the budget is used up.
    return Returned(Some(SENTINEL), attempt);
  }

  /** The command-line `batch_translate`: the same loop, but the progress
      file is never deleted here. */
  method BatchTranslate(chunks: seq<string>, resume: bool, stored: Option<Entries>, script: seq<Attempt>)
    returns (outcome: Outcome, list: Entries, log: seq<Request>, ghost fileAfter: Option<Entries>)
    ensures var d := Run(chunks, Resume(|chunks|, resume, stored), 0, script);
      list == d.list && log == d.log
    // Restored entries are never requested again and are kept; so are
    // entries past the last chunk, which end up in the joined text.
    ensures var loaded := Resume(|chunks|, resume, stored);
      && |list| == |loaded|
      && (forall k :: 0 <= k < |loaded| && (loaded[k].Some? || k >= |chunks|) ==> list[k] == loaded[k])
      && (forall j :: 0 <= j < |log| ==> log[j].index < |loaded| && loaded[log[j].index].None?)
    ensures !(resume && stored.Some?) ==> |list| == |chunks|
    ensures outcome.Translated? <==>
      Run(chunks, Resume(|chunks|, resume, stored), 0, script).stop.Completed? && NoneFree(list)
    ensures outcome.Translated? ==> |chunks| <= |list| && outcome.text == JoinLines(Values(list))
    ensures |Resume(|chunks|, resume, stored)| < |chunks| ==> outcome.Unfinished?
    ensures outcome.Unfinished? && outcome.stop.IndexError? ==>
      outcome.stop.at == |Resume(|chunks|, resume, stored)| < |chunks|
    ensures outcome.JoinTypeError? ==> exists k :: |chunks| <= k < |list| && list[k].None?
    // Every failure is the loop's own: its stop, or the join's `TypeError`.
    ensures var d := Run(chunks, Resume(|chunks|, resume, stored), 0, script);
      && (!d.stop.Completed? ==> outcome == Unfinished(d.stop))
      && (d.stop.Completed? && !NoneFree(list) ==> outcome == JoinTypeError)
    // Whatever happens, the progress file holds the list after the last call.
    ensures fileAfter == (if |log| == 0 then stored else Some(list))
    // So the progress file loads back, with `resume`, as the list.
    ensures resume || |log| > 0 ==> Resume(|chunks|, true, fileAfter) == list
  {
    var loaded := Resume(|chunks|, resume, stored);
    var stop, used;
    ghost var snapshots;
    list, stop, log, used, fileAfter, snapshots := DriveChunks(chunks, loaded, script, stored);
    RunStops(chunks, loaded, 0, script);
    RunTouchesOnlyPending(chunks, loaded, 0, script);
    ProgressFileReloads(chunks, resume, stored, script);
    if !stop.Completed? {
      outcome := Unfinished(stop);
    } else if NoneFree(list) {
      outcome := Translated(JoinLines(Values(list)));
    } else {
      outcome := JoinTypeError;
    }
  }

  /** `text.replace("\u3000", " ")`. */
  function ReplaceIdeographicSpaces(s: string): (r: string)
    ensures |r| == |s|
    ensures forall k :: 0 <= k < |s| ==>
      r[k] == (if s[k] == IDEOGRAPHIC_SPACE then ' ' else s[k])
  {
    if |s| == 0 then ""
    else [if s[0] == IDEOGRAPHIC_SPACE then ' ' else s[0]] + ReplaceIdeographicSpaces(s[1..])
  }

  /** The rewritten text holds no full-width space, and text without one is
      left as it is, so rewriting twice is rewriting once. */
  lemma ReplaceIdeographicSpacesNormalizes(s: string)
    ensures IDEOGRAPHIC_SPACE !in ReplaceIdeographicSpaces(s)
    ensures IDEOGRAPHIC_SPACE !in s ==> ReplaceIdeographicSpaces(s) == s
    ensures ReplaceIdeographicSpaces(ReplaceIdeographicSpaces(s)) == ReplaceIdeographicSpaces(s)
  {
  }

  /** Rewriting works piecewise. */
  lemma ReplaceConcat(a: string, b: string)
    ensures ReplaceIdeographicSpaces(a + b) == ReplaceIdeographicSpaces(a) + ReplaceIdeographicSpaces(b)
  {
  }

  /** Rewriting the joined text is joining the rewritten entries: the
      newline separators are never touched, so the output still has one
      line group per chunk, in order. */
  lemma {:induction false} ReplaceJoin(xs: seq<string>)
    ensures ReplaceIdeographicSpaces(JoinLines(xs))
         == JoinLines(seq(|xs|, k requires 0 <= k < |xs| => ReplaceIdeographicSpaces(xs[k])))
  {
    var ys := seq(|xs|, k requires 0 <= k < |xs| => ReplaceIdeographicSpaces(xs[k]));
    if |xs| >= 2 {
      var ys' := seq(|xs[1..]|, k requires 0 <= k < |xs[1..]| => ReplaceIdeographicSpaces(xs[1..][k]));
      assert ys' == ys[1..];
      ReplaceJoin(xs[1..]);
      ReplaceConcat(xs[0] + "\n", JoinLines(xs[1..]));
      ReplaceConcat(xs[0], "\n");
      assert ReplaceIdeographicSpaces("\n") == "\n";
    }
  }

  /** `translate_file`: translate, write the joined text with every
      full-width space made an ASCII space, then delete the progress file.
      `written` is what is written to the output file (`None`: nothing,
      because the job raised or was stopped). */
  method TranslateFile(chunks: seq<string>, resume: bool, stored: Option<Entries>, script: seq<Attempt>)
    returns (written: Option<string>, list: Entries, log: seq<Request>, ghost fileAfter: Option<Entries>)
    ensures var d := Run(chunks, Resume(|chunks|, resume, stored), 0, script);
      list == d.list && log == d.log
    // Output is written exactly when the job produced text ...
    ensures written.Some? <==>
      Run(chunks, Resume(|chunks|, resume, stored), 0, script).stop.Completed? && NoneFree(list)
    // ... and it is the joined text, rewritten character for character.
    ensures written.Some? ==>
      && written.value == ReplaceIdeographicSpaces(JoinLines(Values(list)))
      && |written.value| == |JoinLines(Values(list))|
      && IDEOGRAPHIC_SPACE !in written.value
    // The deletion is unconditional once the output is written, yet it
    // never discards a pending entry: writing needs a list without `None`.
    ensures written.Some? ==> fileAfter == None && NoneFree(list)
    ensures written.None? ==> fileAfter == (if |log| == 0 then stored else Some(list))
  {
    var outcome;
    outcome, list, log, fileAfter := BatchTranslate(chunks, resume, stored, script);
    if outcome.Translated? {
      var text := ReplaceIdeographicSpaces(outcome.text);
      ReplaceIdeographicSpacesNormalizes(outcome.text);
      written := Some(text);
      fileAfter := None;
    } else {
      written := None;
    }
  }
}
