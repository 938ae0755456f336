/** Shared vocabulary of the translation pipeline: optional values, the
    job's constants, the chunk-result list and the newline join that
    assembles the final document. */
module Common {

  /** Python's `None` or a value. */
  datatype Option<+T> = None | Some(value: T)

  /** The progress list: one entry per chunk, `None` while that chunk is
      still untranslated. It is also the content of the progress file. */
  type Entries = seq<Option<string>>

  /** The placeholder written for a chunk whose retries are all used up
      ("[翻訳エラー]", "translation error"). */
  const SENTINEL: string := "[\U{7FFB}\U{8A33}\U{30A8}\U{30E9}\U{30FC}]"

  /** Seconds a single backend call may take before its answer is discarded. */
  const TIMEOUT: int := 30

  /** The default retry budget of `translate_text`, the one the batch loop uses. */
  const RETRIES: int := 3

  /** No entry is still pending. */
  predicate NoneFree(list: Entries)
  {
    forall k :: 0 <= k < |list| ==> list[k].Some?
  }

  /** The strings of a list with no pending entry. */
  function Values(list: Entries): (xs: seq<string>)
    requires NoneFree(list)
    ensures |xs| == |list|
    ensures forall k :: 0 <= k < |list| ==> list[k] == Some(xs[k])
  {
    seq(|list|, k requires 0 <= k < |list| => list[k].value)
  }

  /** `"\n".join(xs)`. */
  function JoinLines(xs: seq<string>): string
  {
    if |xs| == 0 then ""
    else if |xs| == 1 then xs[0]
    else xs[0] + "\n" + JoinLines(xs[1..])
  }

  /** `s.split("\n")`: the pieces between newline characters, always at
      least one. */
  function SplitLines(s: string): (parts: seq<string>)
    ensures |parts| >= 1
  {
    if |s| == 0 then [""]
    else
      var rest := SplitLines(s[1..]);
      if s[0] == '\n' then [""] + rest
      else [[s[0]] + rest[0]] + rest[1..]
  }

  /** A line without a newline splits into itself. */
  lemma {:induction false} SplitLine(a: string)
    requires '\n' !in a
    ensures SplitLines(a) == [a]
  {
    if |a| > 0 {
      assert '\n' !in a[1..] by {
        forall k | 0 <= k < |a[1..]| ensures a[1..][k] != '\n' {
          assert a[1..][k] == a[k + 1];
        }
      }
      SplitLine(a[1..]);
      assert [a[0]] + a[1..] == a;
    }
  }

  /** Splitting stops at the first newline: the line before it comes out whole. */
  lemma {:induction false} SplitAfterLine(a: string, b: string)
    requires '\n' !in a
    ensures SplitLines(a + "\n" + b) == [a] + SplitLines(b)
  {
    var s := a + "\n" + b;
    if |a| == 0 {
      assert s[1..] == b;
    } else {
      assert s[0] == a[0];
      assert s[1..] == a[1..] + "\n" + b;
      assert '\n' !in a[1..] by {
        forall k | 0 <= k < |a[1..]| ensures a[1..][k] != '\n' {
          assert a[1..][k] == a[k + 1];
        }
      }
      SplitAfterLine(a[1..], b);
      assert [a[0]] + a[1..] == a;
    }
  }

  /** Joining with "\n" keeps every entry, in order: when no entry holds a
      newline, splitting the joined text gives the entries back. */
  lemma {:induction false} SplitJoin(xs: seq<string>)
    requires |xs| >= 1
    requires forall k :: 0 <= k < |xs| ==> '\n' !in xs[k]
    ensures SplitLines(JoinLines(xs)) == xs
  {
    if |xs| == 1 {
      SplitLine(xs[0]);
    } else {
      SplitJoin(xs[1..]);
      SplitAfterLine(xs[0], JoinLines(xs[1..]));
      assert [xs[0]] + xs[1..] == xs;
    }
  }
}
