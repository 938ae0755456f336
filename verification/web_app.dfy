/** The web front end's `batch_translate` (the second, effective,
    definition in its file): resume, drive every chunk to a value, delete
    the progress file once no entry is `None`, and join the entries. */
module WebApp {
  import opened Common
  import opened Translator
  import opened Batch

  /** `stored` is the progress file when the job starts (`None`: no file);
      `fileAfter` is the progress file when it ends. */
  method BatchTranslate(chunks: seq<string>, resume: bool, stored: Option<Entries>, script: seq<Attempt>)
    returns (outcome: Outcome, list: Entries, log: seq<Request>, ghost fileAfter: Option<Entries>)
    // The loop is the one `Run` defines, started from the resumed list.
    ensures var d := Run(chunks, Resume(|chunks|, resume, stored), 0, script);
      list == d.list && log == d.log
    // Restored entries are never requested again and are kept; so are
    // entries past the last chunk. A fresh start has one entry per chunk.
    ensures var loaded := Resume(|chunks|, resume, stored);
      && |list| == |loaded|
      && (forall k :: 0 <= k < |loaded| && (loaded[k].Some? || k >= |chunks|) ==> list[k] == loaded[k])
      && (forall j :: 0 <= j < |log| ==> log[j].index < |loaded| && loaded[log[j].index].None?)
    ensures !(resume && stored.Some?) ==> |list| == |chunks|
    // The job returns text exactly when the loop completed and no entry is
    // `None`; the text is the entries joined in order with "\n".
    ensures outcome.Translated? <==>
      Run(chunks, Resume(|chunks|, resume, stored), 0, script).stop.Completed? && NoneFree(list)
    ensures outcome.Translated? ==> |chunks| <= |list| && outcome.text == JoinLines(Values(list))
    // A too-short resumed list raises `IndexError` at its end; a `None`
    // past the last chunk makes the join raise `TypeError`.
    ensures |Resume(|chunks|, resume, stored)| < |chunks| ==> outcome.Unfinished?
    ensures outcome.Unfinished? && outcome.stop.IndexError? ==>
      outcome.stop.at == |Resume(|chunks|, resume, stored)| < |chunks|
    ensures outcome.JoinTypeError? ==> exists k :: |chunks| <= k < |list| && list[k].None?
    // Every failure is the loop's own: its stop, or the join's `TypeError`.
    ensures var d := Run(chunks, Resume(|chunks|, resume, stored), 0, script);
      && (!d.stop.Completed? ==> outcome == Unfinished(d.stop))
      && (d.stop.Completed? && !NoneFree(list) ==> outcome == JoinTypeError)
    // The progress file is deleted when the job returns text, and otherwise
    // holds the list as it was after the last call.
    ensures outcome.Translated? ==> fileAfter == None
    ensures !outcome.Translated? ==> fileAfter == (if |log| == 0 then stored else Some(list))
    // A progress file left behind loads back, with `resume`, as the list.
    ensures !outcome.Translated? && (resume || |log| > 0) ==> Resume(|chunks|, true, fileAfter) == list
  {
    var loaded := Resume(|chunks|, resume, stored);
    var stop, used;
    ghost var snapshots;
    list, stop, log, used, fileAfter, snapshots := DriveChunks(chunks, loaded, script, stored);
    RunStops(chunks, loaded, 0, script);
    RunTouchesOnlyPending(chunks, loaded, 0, script);
    ProgressFileReloads(chunks, resume, stored, script);
    if !stop.Completed? {
      outcome := Unfinished(stop);
    } else if NoneFree(list) {
      fileAfter := None;
      outcome := Translated(JoinLines(Values(list)));
    } else {
      outcome := JoinTypeError;
    }
  }
}
