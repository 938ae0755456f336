# Retry, timeout and resume logic of a chunked document translator

The system translates a long document by splitting it into chunks and
sending each chunk to a local language-model backend. It puts the results
back together in order. This project models the part that makes the job
robust:

- **`translate_text`**: one chunk, a budget of `retries` (default 3)
  backend invocations.
  - An invocation that raises is retried.
  - The first invocation that returns ends the call. If it took more than
    `TIMEOUT` = 30 seconds, the call returns `None` (the soft timeout) and
    drops the answer. Otherwise it returns the answer unchanged.
  - When every invocation raised, the call returns the sentinel
    `"[翻訳エラー]"` ("translation error").
- **`batch_translate`**: resume, translate, save, join.
  - It starts from the saved progress list when resuming and a progress
    file exists. Otherwise it starts from one `None` per chunk.
  - It calls `translate_text` for each chunk, in order, for as long as that
    chunk's entry is `None`.
  - After every call it saves the whole list to the progress file, `None`
    results included.
  - At the end it joins the entries with `"\n"`.
  - The web variant (`app.py`) deletes the progress file once no entry is
    `None`.
- **`translate_file`** (command line only): replaces every full-width space
  U+3000 in the joined text with an ASCII space and writes the result. It
  then deletes the progress file.

Both entry points carry their own copy of this logic. The model has one
pure `translate_text` and one batch loop, shared by both entry points.
`Cli.BatchTranslate` runs that shared loop, and with it the web copy's
`translate_text`. The command line's own loop-shaped `translate_text` is
modelled as `Cli.TranslateText`. Nothing calls it: it is proved equal to the
shared definition, and that proof is what justifies the sharing.

| module | what it models |
|---|---|
| `Common` | `Option`, the constants, the entry list, the `"\n"` join |
| `Translator` | `translate_text` as a pure function |
| `Batch` | the loop both `batch_translate` copies share |
| `WebApp` | `app.py`'s effective `batch_translate` |
| `Cli` | `app_cli.py`'s loop-shaped `translate_text`, its `batch_translate` and `translate_file` |

The backend is a **script**: the outcomes of the successive backend
invocations of a run, in order. Each outcome is `Raised`, `Slow(content)` or
`Fast(content)`. A call is `Slow` when its measured duration is more than
30 seconds, so a call that takes exactly 30 seconds is in time.

Each `translate_text` call reads the script from where the previous call
stopped. A run whose script ends in the middle of a call stops there, with
the stop `Halted`. This stands for the process being stopped, which is how
the source's unbounded loop ends when the backend keeps timing out.

The batch loop is defined twice: as the recursive function `Batch.Run`, and
as the loop `Batch.DriveChunks` / `Batch.TranslateUntilDone`, which is proved
to compute the same result. `DriveChunks` also records, as ghost state, the
list saved after every call.

## Model

| member | source | states |
|---|---|---|
| `Translator.TranslateText` | app.py:52-86 | A call makes at most `retries` backend invocations, and at least one when `retries` is positive. It returns `None` only right after a slow invocation. Any other result is the sentinel or the unchanged content of the last, fast, invocation. |
| `Translator.RetryPolicy` | app.py:65-86 | Let k be the number of leading invocations that raised. If k reaches `retries`, the result is the sentinel after exactly `retries` invocations. A slow invocation k gives `None` after k+1 invocations, with no further attempt. A fast invocation k gives its content after k+1 invocations. The call is cut off only when the script ends while it is still retrying. |
| `Translator.TranslateDependsOnPrefix` | app.py:65-81 | Only the invocations a call actually made decide its result, because it stops at the first one that returns. |
| `Cli.TranslateText` | app_cli.py:49-80 | The command line's loop over `range(retries)` returns exactly what `Translator.TranslateText` returns. In particular, exhausting the retries on exceptions yields the sentinel after exactly `retries` invocations. |
| `Batch.ProgressFileReloads` | app.py:139-151 | The loader and the per-call save fit together. Loading the progress file a run leaves behind, with `resume`, gives exactly the list the run ended with. This holds whenever the run made a call, or resumed from its own file. A fresh start that made no call leaves an older file in place. |
| `Batch.RunTouchesOnlyPending` | app.py:139-147 | Only entries that are `None` change, and only to a value. Every call is for a `None` entry within the chunk range and gets that chunk's text. So restored entries are never requested again and keep their value, and entries past the last chunk are left alone. |
| `Batch.RunStops` | app.py:145-151 | The loop ends in one of three ways. Completed: every chunk index holds a value. `IndexError`: raised at the end of a resumed list shorter than the chunk list, once all of that list has values. Halted: at a pending chunk, after all earlier ones are done, because the rest of the script cannot finish the call. The calls consume a prefix of the script. |
| `Batch.RunOrder` | app.py:145-151 | Calls come in chunk order. The next call is for the same chunk exactly when the previous call returned `None`, so neither a translation nor the sentinel is ever requested again. The last call of a completed loop returned a value. |
| `Batch.RunProvenance` | app.py:77-81 | Every value the loop writes is either the sentinel or the content of a fast backend answer. A slow answer is never kept on its own account. |
| `Batch.SkipTranslated` | app.py:145-146 | Entries that already hold values are passed over without any call. |
| `Batch.NoTimeoutsCompletes` | app.py:146-148 | With no slow answer, and `RETRIES` invocations in the script for each chunk still ahead, the loop completes. Since the sentinel is not `None`, exhausted retries end the chunk instead of looping. |
| `Batch.HaltedThenContinued` | app.py:145-151 | Take a run stopped at chunk `at`. Continuing it from its saved list at `at`, on new backend answers, gives the same result as one run over the answers of the completed calls followed by the new answers. |
| `Batch.CrashResume` | app.py:139-151 | A stopped job is restarted with `resume` and loads the progress file it left. The restarted job reaches the same list and the same ending as an uninterrupted one. Its calls are exactly the ones the uninterrupted run still had to make. A stop at a backend invocation loses only the call that was in flight. |
| `Batch.TranslateUntilDone` | app.py:146-151 | The inner loop leaves the chunk with a value, or stops only because the script ended mid-call. It keeps the progress file equal to the in-memory list after every call. |
| `Batch.DriveChunks` | app.py:145-151 | The imperative loop computes exactly `Batch.Run`. After each call, `None` included, it saves the list with that call's reply written in. At the end, the progress file holds the final list, or is untouched if no call was made. |
| `WebApp.BatchTranslate` | app.py:127-158 | Text comes back exactly when the loop completed and no entry is `None`. That text is the entries joined in order with `"\n"`. Restored entries are kept and never re-requested, and a fresh start has one entry per chunk. Any other outcome is the loop's own: the loop's stop when it did not complete, otherwise the join's `TypeError`, which happens exactly when a `None` is left past the last chunk. So a too-short resumed list raises `IndexError` at its end. The progress file is deleted exactly when text comes back. Otherwise it holds the list after the last call, and it loads back as that list. |
| `Cli.BatchTranslate` | app_cli.py:92-116 | Same loop, outcomes and length cases as the web variant. A run that did not complete ends `Unfinished` with the loop's own stop. A completed run with a `None` left ends in the join's `TypeError`. The progress file is never deleted here: it always holds the list after the last call, and it loads back as that list. |
| `Cli.TranslateFile` | app_cli.py:119-137 | Output is written exactly when the job returns text. The output is that text with every U+3000 replaced by a space. It has the same length and contains no U+3000. Deleting the progress file afterwards is unconditional, yet it can never drop a pending entry, because writing requires a list with no `None`. |
| `Cli.ReplaceIdeographicSpaces` | app_cli.py:133 | Position by position, the output is the input with each U+3000 turned into `' '` and every other character kept, so its length is unchanged. |
| `Cli.ReplaceIdeographicSpacesNormalizes` | app_cli.py:133 | The rewritten text has no U+3000. Text without one is unchanged, so rewriting twice equals rewriting once. |
| `Cli.ReplaceJoin` | app_cli.py:133 | Rewriting the joined text equals joining the rewritten entries. The newline separators are never touched. |
| `Common.SplitJoin` | app.py:158 | The join keeps every entry in order. When no entry contains a newline, splitting the joined text at `"\n"` gives back exactly the entries. |

## Behaviour of the code worth knowing

- **Soft timeout.** `translate_text` returns `None` at once on a slow call
  and drops the answer. The retry happens in `batch_translate`'s
  `while … is None` loop, which starts a fresh call with a fresh budget of
  `retries` invocations (`Translator.RetryPolicy`, `Batch.RunOrder`).
- **Saving.** The loop saves the whole list after every call, including a
  call that returned `None` (`Batch.DriveChunks`).
- **Deleting the progress file.** The web code deletes it only when
  `None not in` the list; that check, not the join, skips the deletion
  (`WebApp.BatchTranslate`). The command-line `translate_file` deletes it
  unconditionally after writing the output. It cannot drop a pending entry,
  because the join in `batch_translate` raises on a `None` before
  `translate_file` reaches the deletion (`Cli.TranslateFile`).
- **Loading.** The saved list is taken as it is, whatever its length:
  - a shorter list raises `IndexError` once the loop reaches its end;
  - extra entries in a longer list are joined into the output;
  - a `None` among those extra entries makes the join raise `TypeError`.

## Left out

- Chunking (`split_text`, defined twice in `app.py`, the later one
  effective): it wraps a library splitter whose algorithm is not part of
  this model. The chunks are a given `seq<string>`.
- The first `batch_translate` in `app.py` (lines 98-124): it is rebound by
  the second definition and never runs.
- Building the system and user prompts, and the `ChatOpenAI` client with its
  model name, endpoint and temperature: these are foreign calls. Every
  backend invocation becomes the next entry of the script.
- Wall-clock time: the float measurement becomes the `Slow`/`Fast` tag of
  each script entry.
- The 5-second sleeps, the progress timestamps and every `st.write`,
  `st.warning`, `st.error` and `print` notification: they do not affect any
  value.
- JSON and the filesystem:
  - the progress file is an `Option` of the entry list (`None`: no file);
  - a file without the `translated_chunks` key, entries that are not
    strings, and read or write failures are not modelled;
  - reading the input file and writing the output file become the
    parameters and results of `Cli.TranslateFile`.
- `Batch.CrashResume`: treats each save of the progress file as
  all-or-nothing, and a stop only as happening at a backend invocation.
  A stop during `save_progress` is not modelled. That save opens the file
  with `"w"`, which empties it before the JSON is written, so such a stop can
  leave a partial file. `json.load` then raises on it at restart, and every
  saved entry is lost, not just one call.
- The progress file before the job is a real input, because its contents
  become the starting list. The file during and after the job is ghost
  state, because the program only writes it.
- The Streamlit page (upload, context check, result display, download
  button) and the command-line argument parsing: these are the I/O shell.
  Both call the batch job with `resume=True`; the model takes `resume` as a
  parameter.
- The unbounded retry on soft timeouts: a run sees only the backend
  invocations its script lists. A run that would go on past the end of the
  script is reported as `Halted`. `Batch.NoTimeoutsCompletes` gives a
  condition under which the loop completes.
