/** The resumable batch loop shared by both entry points: every chunk whose
    entry is `None` is sent to `translate_text` until it gets a value, and
    the whole list is saved to the progress file after every call. */
module Batch {
  import opened Common
  import opened Translator

  /** One `translate_text` call made by the loop: the chunk index and text
      it was given, what it returned, and how many backend invocations it
      consumed. */
  datatype Request = Request(index: nat, text: string, reply: Option<string>, attempts: nat)

  /** How the loop ended: every chunk index was handled; the list was too
      short and indexing it at `at` raised `IndexError`; or the script ran
      out during the call for chunk `at` (the process was stopped). */
  datatype Stop = Completed | IndexError(at: nat) | Halted(at: nat)

  /** The list, the way the loop ended, and the calls it made. */
  datatype RunEnd = RunEnd(list: Entries, stop: Stop, log: seq<Request>)

  /** What a batch job hands back to its caller: the joined text; a loop
      that did not complete; or a completed loop whose list still holds a
      `None` past the last chunk, on which `"\n".join` raises `TypeError`. */
  datatype Outcome = Translated(text: string) | Unfinished(stop: Stop) | JoinTypeError

  /** The list the loop starts from: the saved one when resuming from an
      existing progress file, otherwise one `None` per chunk. */
  function Resume(n: nat, resume: bool, stored: Option<Entries>): (loaded: Entries)
    ensures resume && stored.Some? ==> loaded == stored.value
    ensures !(resume && stored.Some?) ==> |loaded| == n && forall k :: 0 <= k < n ==> loaded[k] == None
  {
    if resume && stored.Some? then stored.value else seq(n, _ => None)
  }

  /** Backend invocations consumed by a sequence of calls. */
  function Consumed(log: seq<Request>): nat
  {
    if |log| == 0 then 0 else log[0].attempts + Consumed(log[1..])
  }

  lemma {:induction false} ConsumedAppend(a: seq<Request>, b: seq<Request>)
    ensures Consumed(a + b) == Consumed(a) + Consumed(b)
  {
    if |a| == 0 {
      assert a + b == b;
    } else {
      assert (a + b)[1..] == a[1..] + b;
      ConsumedAppend(a[1..], b);
    }
  }

  /** Calls `log` made before the run `d`. */
  function Prepend(log: seq<Request>, d: RunEnd): RunEnd
  {
    RunEnd(d.list, d.stop, log + d.log)
  }

  /** Calls made before calls made before a run. */
  lemma PrependTwice(a: seq<Request>, b: seq<Request>, d: RunEnd)
    ensures Prepend(a, Prepend(b, d)) == Prepend(a + b, d)
  {
  }

  /** The loop from chunk index `i` on, as a recursive definition: the
      reference the imperative loop is proved against. */
  function Run(chunks: seq<string>, list: Entries, i: nat, script: seq<Attempt>): RunEnd
    decreases |chunks| - i, |script|
  {
    if i >= |chunks| then RunEnd(list, Completed, [])
    else if i >= |list| then RunEnd(list, IndexError(i), [])
    else if list[i].Some? then Run(chunks, list, i + 1, script)
    else match TranslateText(script, RETRIES)
      case ScriptEnded => RunEnd(list, Halted(i), [])
      case Returned(r, a) =>
        Prepend([Request(i, chunks[i], r, a)], Run(chunks, list[i := r], i, script[a..]))
  }

  /** The list is changed only at pending chunk indices, and only from
      `None` to a value; every call is for a pending chunk and is given that
      chunk's text. So entries restored from the progress file are never
      requested again and reach the output unchanged, and entries past the
      last chunk are left as they were. */
  lemma {:induction false} RunTouchesOnlyPending(chunks: seq<string>, list: Entries, i: nat, script: seq<Attempt>)
    ensures var d := Run(chunks, list, i, script);
      && |d.list| == |list|
      && (forall k :: 0 <= k < |list| && d.list[k] != list[k] ==>
            i <= k < |chunks| && list[k].None? && d.list[k].Some?)
      && (forall j :: 0 <= j < |d.log| ==>
            i <= d.log[j].index < |chunks| && d.log[j].index < |list|
            && list[d.log[j].index].None? && d.log[j].text == chunks[d.log[j].index])
    decreases |chunks| - i, |script|
  {
    if i >= |chunks| || i >= |list| {
    } else if list[i].Some? {
      RunTouchesOnlyPending(chunks, list, i + 1, script);
    } else {
      match TranslateText(script, RETRIES)
      case ScriptEnded =>
      case Returned(r, a) =>
        RunTouchesOnlyPending(chunks, list[i := r], i, script[a..]);
    }
  }

  /** How the loop can end. Completed: every chunk index holds a value.
      IndexError: raised at the first index past a too-short list, after
      every entry of the list got a value. Halted: at a pending chunk, every
      earlier one done, because the rest of the script cannot finish the
      call. In every case the calls consumed a prefix of the script. */
  lemma {:induction false} RunStops(chunks: seq<string>, list: Entries, i: nat, script: seq<Attempt>)
    requires i <= |list|
    ensures var d := Run(chunks, list, i, script);
      && |d.list| == |list|
      && Consumed(d.log) <= |script|
      && (d.stop.Completed? ==>
              |chunks| <= |list| && forall k :: i <= k < |chunks| ==> d.list[k].Some?)
      && (d.stop.IndexError? ==>
            d.stop.at == |list| < |chunks| && forall k :: i <= k < |list| ==> d.list[k].Some?)
      && (d.stop.Halted? ==>
            && i <= d.stop.at < |chunks| && d.stop.at < |list| && d.list[d.stop.at].None?
            && (forall k :: i <= k < d.stop.at ==> d.list[k].Some?)
            && TranslateText(script[Consumed(d.log)..], RETRIES).ScriptEnded?)
    decreases |chunks| - i, |script|
  {
    var d := Run(chunks, list, i, script);
    if i >= |chunks| || i >= |list| {
    } else if list[i].Some? {
      RunStops(chunks, list, i + 1, script);
      RunTouchesOnlyPending(chunks, list, i + 1, script);
      assert d.list[i] == list[i];
    } else {
      match TranslateText(script, RETRIES)
      case ScriptEnded =>
        assert script[Consumed(d.log)..] == script;
      case Returned(r, a) =>
        var rest := Run(chunks, list[i := r], i, script[a..]);
        RunStops(chunks, list[i := r], i, script[a..]);
        assert d.log[1..] == rest.log;
        assert Consumed(d.log) == a + Consumed(rest.log);
        assert script[Consumed(d.log)..] == script[a..][Consumed(rest.log)..];
    }
  }

  /** Calls are made in chunk order; the next call is for the same chunk
      exactly when the previous one returned `None`, so neither a value nor
      the sentinel is ever requested again; and a completed loop's last call
      returned a value. */
  lemma {:induction false} RunOrder(chunks: seq<string>, list: Entries, i: nat, script: seq<Attempt>)
    ensures var d := Run(chunks, list, i, script);
      && (forall j, j' :: 0 <= j < j' < |d.log| ==> d.log[j].index <= d.log[j'].index)
      && (forall j, j' :: 0 <= j && j' == j + 1 && j' < |d.log| ==>
            (d.log[j].index == d.log[j'].index <==> d.log[j].reply.None?))
      && (d.stop.Completed? && |d.log| > 0 ==> d.log[|d.log| - 1].reply.Some?)
    decreases |chunks| - i, |script|
  {
    var d := Run(chunks, list, i, script);
    if i >= |chunks| || i >= |list| {
    } else if list[i].Some? {
      RunOrder(chunks, list, i + 1, script);
    } else {
      match TranslateText(script, RETRIES)
      case ScriptEnded =>
      case Returned(r, a) =>
        var list' := list[i := r];
        var rest := Run(chunks, list', i, script[a..]);
        RunOrder(chunks, list', i, script[a..]);
        RunTouchesOnlyPending(chunks, list', i, script[a..]);
        assert d.log == [Request(i, chunks[i], r, a)] + rest.log;
        if |rest.log| > 0 {
          if r.None? {
            // Still pending: the next call is for chunk i again.
            assert list' == list;
            assert rest.log[0].index == i;
          } else {
            assert list'[rest.log[0].index].None?;
            assert rest.log[0].index != i;
          }
        } else if d.stop.Completed? {
          // Completing without a further call means chunk i got its value.
          assert r.Some?;
        }
    }
  }

  /** A value the loop writes is the sentinel or the content of a fast
      backend answer: the content of a slow answer is never kept on its own
      account. */
  lemma {:induction false} RunProvenance(chunks: seq<string>, list: Entries, i: nat, script: seq<Attempt>)
    ensures var d := Run(chunks, list, i, script);
      && |d.list| == |list|
      && forall k :: 0 <= k < |list| && d.list[k] != list[k] ==>
           d.list[k].Some? && (d.list[k].value == SENTINEL || Fast(d.list[k].value) in script)
    decreases |chunks| - i, |script|
  {
    RunTouchesOnlyPending(chunks, list, i, script);
    var d := Run(chunks, list, i, script);
    if i >= |chunks| || i >= |list| {
    } else if list[i].Some? {
      RunProvenance(chunks, list, i + 1, script);
    } else {
      match TranslateText(script, RETRIES)
      case ScriptEnded =>
      case Returned(r, a) =>
        var list' := list[i := r];
        RunProvenance(chunks, list', i, script[a..]);
        forall k | 0 <= k < |list| && d.list[k] != list[k]
          ensures d.list[k].value == SENTINEL || Fast(d.list[k].value) in script
        {
          var v := d.list[k].value;
          if d.list[k] != list'[k] {
            if v != SENTINEL {
              var x :| 0 <= x < |script[a..]| && script[a..][x] == Fast(v);
              assert script[a + x] == Fast(v);
            }
          } else {
            assert k == i && r == Some(v);
            if v != SENTINEL {
              assert script[a - 1] == Fast(v);
            }
          }
        }
    }
  }

  /** Entries that already hold values are skipped without a call. */
  lemma {:induction false} SkipTranslated(chunks: seq<string>, list: Entries, i: nat, j: nat, script: seq<Attempt>)
    requires i <= j <= |chunks| && j <= |list|
    requires forall k :: i <= k < j ==> list[k].Some?
    ensures Run(chunks, list, i, script) == Run(chunks, list, j, script)
    decreases j - i
  {
    if i < j {
      SkipTranslated(chunks, list, i + 1, j, script);
    }
  }

  /** When no backend answer is slow and the script holds `RETRIES`
      invocations for every chunk index still ahead, the loop completes:
      the sentinel is a value, so exhausted retries never loop. */
  lemma {:induction false} NoTimeoutsCompletes(chunks: seq<string>, list: Entries, i: nat, script: seq<Attempt>)
    requires i <= |chunks| <= |list|
    requires forall k :: 0 <= k < |script| ==> !script[k].Slow?
    requires |script| >= RETRIES * (|chunks| - i)
    ensures Run(chunks, list, i, script).stop.Completed?
    decreases |chunks| - i, |script|
  {
    if i == |chunks| {
    } else if list[i].Some? {
      NoTimeoutsCompletes(chunks, list, i + 1, script);
    } else {
      var c := TranslateText(script, RETRIES);
      assert !c.ScriptEnded?;
      var list' := list[i := c.result];
      assert c.result.Some?;
      var s' := script[c.attempts..];
      assert forall k :: 0 <= k < |s'| ==> !s'[k].Slow? by {
        forall k | 0 <= k < |s'| ensures !s'[k].Slow? {
          assert s'[k] == script[c.attempts + k];
        }
      }
      NoTimeoutsCompletes(chunks, list', i + 1, s');
      SkipTranslated(chunks, list', i, i + 1, s');
    }
  }

  /** A run interrupted while translating chunk `at` and then resumed from
      its saved list, at that chunk, with fresh backend answers `rest`, is
      indistinguishable from one uninterrupted run that sees the completed
      calls' answers followed by `rest`: same list, same ending, and the
      resumed run makes exactly the calls that remain. */
  lemma {:induction false} HaltedThenContinued(chunks: seq<string>, list: Entries, i: nat,
                                               script: seq<Attempt>, rest: seq<Attempt>)
    requires i <= |list|
    requires Run(chunks, list, i, script).stop.Halted?
    ensures var d := Run(chunks, list, i, script);
      var u := Consumed(d.log);
      && u <= |script|
      && Run(chunks, list, i, script[..u] + rest) == Prepend(d.log, Run(chunks, d.list, d.stop.at, rest))
    decreases |chunks| - i, |script|
  {
    RunStops(chunks, list, i, script);
    var d := Run(chunks, list, i, script);
    var u := Consumed(d.log);
    if list[i].Some? {
      HaltedThenContinued(chunks, list, i + 1, script, rest);
    } else {
      match TranslateText(script, RETRIES)
      case ScriptEnded =>
        assert script[..u] + rest == rest;
        assert d.log + Run(chunks, d.list, d.stop.at, rest).log == Run(chunks, d.list, d.stop.at, rest).log;
      case Returned(r, a) =>
        var list' := list[i := r];
        var s' := script[a..];
        var tail := Run(chunks, list', i, s');
        HaltedThenContinued(chunks, list', i, s', rest);
        var u' := Consumed(tail.log);
        assert d.log == [Request(i, chunks[i], r, a)] + tail.log;
        assert d.log[1..] == tail.log;
        assert u == a + u';
        var p := script[..u] + rest;
        assert p[..a] == script[..a];
        TranslateDependsOnPrefix(script, p, RETRIES);
        assert p[a..] == s'[..u'] + rest;
        var resumed := Run(chunks, d.list, d.stop.at, rest);
        assert Run(chunks, list, i, p) == Prepend([Request(i, chunks[i], r, a)], Run(chunks, list', i, p[a..]));
        assert [Request(i, chunks[i], r, a)] + (tail.log + resumed.log) == d.log + resumed.log;
    }
  }

  /** A run that made no call leaves the list as it found it. */
  lemma {:induction false} RunNoCallKeepsList(chunks: seq<string>, list: Entries, i: nat, script: seq<Attempt>)
    ensures var d := Run(chunks, list, i, script);
      |d.log| == 0 ==> d.list == list
    decreases |chunks| - i, |script|
  {
    if i < |chunks| && i < |list| && list[i].Some? {
      RunNoCallKeepsList(chunks, list, i + 1, script);
    }
  }

  /** The progress file a run leaves behind loads back, with `resume`, as
      the list the run ended with: the saved list after a call, or the file
      it started from when it made none. (A fresh start that made no call
      leaves an older file in place, which does not load back as its list.) */
  lemma ProgressFileReloads(chunks: seq<string>, resume: bool, stored: Option<Entries>, script: seq<Attempt>)
    ensures var d := Run(chunks, Resume(|chunks|, resume, stored), 0, script);
      var file := if |d.log| == 0 then stored else Some(d.list);
      (resume || |d.log| > 0) ==> Resume(|chunks|, true, file) == d.list
  {
    RunNoCallKeepsList(chunks, Resume(|chunks|, resume, stored), 0, script);
  }

  /** Restarting with `resume` after an interruption: the job loads the
      progress file the stopped run left, and from it reaches the same list
      and ending as the uninterrupted run, making exactly the calls that
      run still had to make. A stop at a backend invocation loses only the
      call in flight; each save is taken to replace the file at once. */
  lemma CrashResume(chunks: seq<string>, resume: bool, stored: Option<Entries>,
                    script: seq<Attempt>, rest: seq<Attempt>)
    requires Run(chunks, Resume(|chunks|, resume, stored), 0, script).stop.Halted?
    ensures var loaded := Resume(|chunks|, resume, stored);
      var d := Run(chunks, loaded, 0, script);
      var file := if |d.log| == 0 then stored else Some(d.list);
      var u := Consumed(d.log);
      && u <= |script|
      && ((resume || |d.log| > 0) ==>
            Run(chunks, loaded, 0, script[..u] + rest) == Prepend(d.log, Run(chunks, Resume(|chunks|, true, file), 0, rest)))
  {
    var loaded := Resume(|chunks|, resume, stored);
    var d := Run(chunks, loaded, 0, script);
    RunStops(chunks, loaded, 0, script);
    RunTouchesOnlyPending(chunks, loaded, 0, script);
    HaltedThenContinued(chunks, loaded, 0, script, rest);
    SkipTranslated(chunks, d.list, 0, d.stop.at, rest);
    ProgressFileReloads(chunks, resume, stored, script);
  }

  /** The progress file after each call: `snapshots[j]` is the list saved
      right after the j-th call, that is the list before it with the
      call's reply, `None` included, written at the call's index. */
  ghost predicate SavedAfterEveryCall(loaded: Entries, log: seq<Request>, snapshots: seq<Entries>)
  {
    && |snapshots| == |log|
    && (|log| > 0 ==>
          log[0].index < |loaded| && snapshots[0] == loaded[log[0].index := log[0].reply])
    && forall j, j' :: 0 <= j && j' == j + 1 && j' < |log| ==>
         log[j'].index < |snapshots[j]| && snapshots[j'] == snapshots[j][log[j'].index := log[j'].reply]
  }

  /** One more call, one more saved list. */
  lemma SavedExtend(loaded: Entries, log: seq<Request>, snapshots: seq<Entries>, list: Entries, request: Request)
    requires SavedAfterEveryCall(loaded, log, snapshots)
    requires |log| == 0 ==> list == loaded
    requires |log| > 0 ==> snapshots[|log| - 1] == list
    requires request.index < |list|
    ensures SavedAfterEveryCall(loaded, log + [request], snapshots + [list[request.index := request.reply]])
  {
  }

  /** One call of the loop at a pending chunk, as `Run` takes it. */
  lemma RunCallStep(chunks: seq<string>, list: Entries, i: nat, script: seq<Attempt>, used: nat, call: CallEnd)
    requires i < |chunks| && i < |list| && list[i].None? && used <= |script|
    requires call == TranslateText(script[used..], RETRIES)
    ensures call.ScriptEnded? ==> Run(chunks, list, i, script[used..]) == RunEnd(list, Halted(i), [])
    ensures call.Returned? ==>
      && used + call.attempts <= |script|
      && Run(chunks, list, i, script[used..])
         == Prepend([Request(i, chunks[i], call.result, call.attempts)],
                    Run(chunks, list[i := call.result], i, script[used + call.attempts..]))
  {
  }

  /** What the loop keeps true between calls: from the current list at
      chunk `i` with the unread part of the script, `Run` finishes what the
      whole run does; the progress file holds the current list once a call
      was made, and each call saved the list it left. */
  ghost predicate Driving(chunks: seq<string>, loaded: Entries, script: seq<Attempt>, stored: Option<Entries>,
                          list: Entries, i: nat, log: seq<Request>, used: nat,
                          saved: Option<Entries>, snapshots: seq<Entries>)
  {
    && |list| == |loaded|
    && used == Consumed(log) <= |script|
    && Run(chunks, loaded, 0, script) == Prepend(log, Run(chunks, list, i, script[used..]))
    && SavedAfterEveryCall(loaded, log, snapshots)
    && (|log| == 0 ==> saved == stored && list == loaded)
    && (|log| > 0 ==> saved == Some(list) && snapshots[|log| - 1] == list)
  }

  /** A call that returned keeps `Driving` true once its reply is written,
      the call is logged, its attempts are counted and the list is saved. */
  lemma CallKeepsDriving(chunks: seq<string>, loaded: Entries, script: seq<Attempt>, stored: Option<Entries>,
                         list: Entries, i: nat, log: seq<Request>, used: nat,
                         saved: Option<Entries>, snapshots: seq<Entries>)
    requires Driving(chunks, loaded, script, stored, list, i, log, used, saved, snapshots)
    requires i < |chunks| && i < |list| && list[i].None?
    requires TranslateText(script[used..], RETRIES).Returned?
    ensures var call := TranslateText(script[used..], RETRIES);
      var request := Request(i, chunks[i], call.result, call.attempts);
      var list' := list[i := call.result];
      Driving(chunks, loaded, script, stored, list', i, log + [request], used + call.attempts,
              Some(list'), snapshots + [list'])
  {
    var call := TranslateText(script[used..], RETRIES);
    RunCallStep(chunks, list, i, script, used, call);
    var request := Request(i, chunks[i], call.result, call.attempts);
    SavedExtend(loaded, log, snapshots, list, request);
    PrependTwice(log, [request], Run(chunks, list[i := call.result], i, script[used + call.attempts..]));
    ConsumedAppend(log, [request]);
    assert Consumed([request]) == call.attempts;
  }

  /** The loop starts in a `Driving` state. */
  lemma DrivingStarts(chunks: seq<string>, loaded: Entries, script: seq<Attempt>, stored: Option<Entries>)
    ensures Driving(chunks, loaded, script, stored, loaded, 0, [], 0, stored, [])
  {
    assert script[0..] == script;
  }

  /** Moving past a chunk that holds a value keeps `Driving` true. */
  lemma DrivingNext(chunks: seq<string>, loaded: Entries, script: seq<Attempt>, stored: Option<Entries>,
                    list: Entries, i: nat, log: seq<Request>, used: nat,
                    saved: Option<Entries>, snapshots: seq<Entries>)
    requires Driving(chunks, loaded, script, stored, list, i, log, used, saved, snapshots)
    requires i < |chunks| && i < |list| && list[i].Some?
    ensures Driving(chunks, loaded, script, stored, list, i + 1, log, used, saved, snapshots)
  {
  }

  /** When the loop stops, it has done what the whole run does. */
  lemma DrivingEnds(chunks: seq<string>, loaded: Entries, script: seq<Attempt>, stored: Option<Entries>,
                    list: Entries, i: nat, log: seq<Request>, used: nat,
                    saved: Option<Entries>, snapshots: seq<Entries>, stop: Stop)
    requires Driving(chunks, loaded, script, stored, list, i, log, used, saved, snapshots)
    requires || (i >= |chunks| && stop == Completed)
             || (i < |chunks| && i >= |list| && stop == IndexError(i))
             || (stop == Halted(i) && Run(chunks, list, i, script[used..]) == RunEnd(list, Halted(i), []))
    ensures Run(chunks, loaded, 0, script) == RunEnd(list, stop, log)
  {
    assert log + [] == log;
  }

  /** The inner loop of `batch_translate` for chunk `i`: call
      `translate_text` while the entry is `None`, saving the list after
      every call. It stops early only when the script ends mid-call. */
  method TranslateUntilDone(chunks: seq<string>, ghost loaded: Entries, script: seq<Attempt>, ghost stored: Option<Entries>,
                            list0: Entries, i: nat, log0: seq<Request>, used0: nat,
                            ghost saved0: Option<Entries>, ghost snapshots0: seq<Entries>)
    returns (list: Entries, log: seq<Request>, used: nat, halted: bool,
             ghost saved: Option<Entries>, ghost snapshots: seq<Entries>)
    requires i < |chunks| && i < |list0|
    requires Driving(chunks, loaded, script, stored, list0, i, log0, used0, saved0, snapshots0)
    ensures Driving(chunks, loaded, script, stored, list, i, log, used, saved, snapshots)
    ensures !halted ==> i < |list| && list[i].Some?
    ensures halted ==> Run(chunks, list, i, script[used..]) == RunEnd(list, Halted(i), [])
  {
    list, log, used, halted, saved, snapshots := list0, log0, used0, false, saved0, snapshots0;
    while list[i].None?
      invariant i < |list|
      invariant Driving(chunks, loaded, script, stored, list, i, log, used, saved, snapshots)
      decreases |script| - used
    {
      var call := TranslateText(script[used..], RETRIES);
      if call.ScriptEnded? {
        RunCallStep(chunks, list, i, script, used, call);
        halted := true;
        return;
      }
      CallKeepsDriving(chunks, loaded, script, stored, list, i, log, used, saved, snapshots);
      list := list[i := call.result];
      log := log + [Request(i, chunks[i], call.result, call.attempts)];
      used := used + call.attempts;
      saved := Some(list);
      snapshots := snapshots + [list];
    }
  }

  /** The loop of `batch_translate`, from the list `loaded`. `stored` is the
      progress file before the loop and `saved` the file after it. */
  method DriveChunks(chunks: seq<string>, loaded: Entries, script: seq<Attempt>, ghost stored: Option<Entries>)
    returns (list: Entries, stop: Stop, log: seq<Request>, used: nat,
             ghost saved: Option<Entries>, ghost snapshots: seq<Entries>)
    ensures Run(chunks, loaded, 0, script) == RunEnd(list, stop, log)
    ensures used == Consumed(log) <= |script|
    ensures SavedAfterEveryCall(loaded, log, snapshots)
    ensures |log| == 0 ==> saved == stored && list == loaded
    ensures |log| > 0 ==> saved == Some(list) && snapshots[|log| - 1] == list
  {
    list, stop, log, used, saved, snapshots := loaded, Completed, [], 0, stored, [];
    DrivingStarts(chunks, loaded, script, stored);
    var i: nat := 0;
    while i < |chunks|
      invariant i <= |chunks|
      invariant Driving(chunks, loaded, script, stored, list, i, log, used, saved, snapshots)
    {
      if i >= |list| {
        stop := IndexError(i);
        DrivingEnds(chunks, loaded, script, stored, list, i, log, used, saved, snapshots, stop);
        return;
      }
      var halted;
      list, log, used, halted, saved, snapshots :=
        TranslateUntilDone(chunks, loaded, script, stored, list, i, log, used, saved, snapshots);
      if halted {
        stop := Halted(i);
        DrivingEnds(chunks, loaded, script, stored, list, i, log, used, saved, snapshots, stop);
        return;
      }
      DrivingNext(chunks, loaded, script, stored, list, i, log, used, saved, snapshots);
      i := i + 1;
    }
    DrivingEnds(chunks, loaded, script, stored, list, i, log, used, saved, snapshots, stop);
  }
}
