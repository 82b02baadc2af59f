/** The three values the action hands to the CI platform once the cancel loop is done. */
module Report {
  import opened Wrappers
  import opened Decimal
  import opened Cancellation

  /** The flag, and, only when the flag is set, the cancelled ids and the PR-comment markdown. */
  datatype Report = Report(cancelledFlag: bool, cancelledIds: Option<seq<int>>, markdown: Option<string>)

  const Header: string :=
    "**The following dbt Cloud job runs were cancelled to free up the queue for the new CI job on the current PR:**"

  /** The markdown line for one cancelled run: its id, its UTC cancel time and a link to it. */
  function Segment(r: CancelledRun): string
  {
    "<br>  - Run **" + IntToString(r.runId) + "** was cancelled at **" + r.cancelledAt
      + " UTC**, view this run in dbt Cloud [here](" + r.url + ")"
  }

  /** The renderings of all items, concatenated in order (the loop that appends one
      rendering per item to a string). */
  function ConcatMap<T>(items: seq<T>, render: T -> string): string
    decreases |items|
  {
    if |items| == 0 then "" else ConcatMap(items[..|items| - 1], render) + render(items[|items| - 1])
  }

  /** The segments of all cancelled runs, concatenated in order. */
  function Segments(done: seq<CancelledRun>): string
  {
    ConcatMap(done, Segment)
  }

  /** The reporting branch of `main`. */
  function Summarise(done: seq<CancelledRun>): (r: Report)
    ensures r.cancelledFlag <==> 0 < |done|
    ensures r.cancelledFlag <==> r.cancelledIds.Some?
    ensures r.cancelledIds.Some? ==> 0 < |r.cancelledIds.value|
    ensures r.cancelledIds.Some? <==> r.markdown.Some?
    ensures r.cancelledIds.Some? ==>
      |r.cancelledIds.value| == |done|
      && forall k :: 0 <= k < |done| ==> r.cancelledIds.value[k] == done[k].runId
    ensures r.markdown.Some? ==> Header <= r.markdown.value
  {
    if 0 < |done| then Report(true, Some(CancelledIds(done)), Some(Header + Segments(done)))
    else Report(false, None, None)
  }

  /** Concatenating renderings distributes over splitting the list of items. */
  lemma {:induction false} ConcatMapSplit<T>(a: seq<T>, b: seq<T>, render: T -> string)
    ensures ConcatMap(a + b, render) == ConcatMap(a, render) + ConcatMap(b, render)
    decreases |b|
  {
    if |b| == 0 {
      assert a + b == a;
    } else {
      var b' := b[..|b| - 1];
      assert (a + b)[..|a + b| - 1] == a + b';
      assert (a + b)[|a + b| - 1] == b[|b| - 1];
      ConcatMapSplit(a, b', render);
    }
  }

  /** Each item's rendering sits between the renderings of the items before it and
      those after it. */
  lemma {:induction false} ConcatMapAt<T>(items: seq<T>, k: nat, render: T -> string)
    requires k < |items|
    ensures ConcatMap(items, render)
      == ConcatMap(items[..k], render) + render(items[k]) + ConcatMap(items[k + 1..], render)
  {
    var before := items[..k];
    var after := items[k + 1..];
    var one := [items[k]];
    assert items == (before + one) + after;
    ConcatMapSplit(before + one, after, render);
    ConcatMapSplit(before, one, render);
    assert one[..0] == [];
    assert ConcatMap(one, render) == ConcatMap(one[..0], render) + render(items[k]);
  }

  /** The markdown lists every cancelled run exactly once, in order: after the header come
      the segments of the runs before the k-th, the k-th run's segment, then the rest. */
  lemma {:induction false} MarkdownListsRunsInOrder(done: seq<CancelledRun>, k: nat)
    requires k < |done|
    ensures Summarise(done).markdown
      == Some(Header + (Segments(done[..k]) + Segment(done[k]) + Segments(done[k + 1..])))
  {
    ConcatMapAt(done, k, Segment);
  }

  /** The run id printed in a segment reads back as that run's id. */
  lemma SegmentShowsId(r: CancelledRun)
    ensures var prefix := "<br>  - Run **";
      var s := Segment(r)[|prefix|..|prefix| + |IntToString(r.runId)|];
      s == IntToString(r.runId) && ParseInt(s) == r.runId
  {
    IntRoundTrip(r.runId);
  }
}
