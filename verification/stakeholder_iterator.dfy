/** The iterator pattern of Main.java: a one-directional, single-pass cursor over a
    fixed list of stakeholders that answers with a sentinel once it has run out.

    The machine has two states, has-next (`index < |stakeholders|`) and exhausted
    (`index == |stakeholders|`); exhausted is terminal. */
module StakeholderIterator {
  import opened Wrappers

  /** The iterator's two private fields. The stakeholder class is never defined by the
      program, so the element type is a parameter. The Java `int` index starts at 0
      and is only ever incremented, so it is a `nat` here. The list is held as an
      immutable sequence: the Java object shares the caller's list, and the properties
      below hold for a list nobody else changes (`main` passes an immutable one). */
  datatype Iterator<T> = Iterator(stakeholders: seq<T>, index: nat)

  /** One call of `next`: the iterator afterwards and the reference returned. */
  datatype Step<T> = Step(after: Iterator<T>, returned: Option<T>)

  /** Several calls of `next` in a row: the iterator afterwards and every answer, in call order. */
  datatype Trace<T> = Trace(after: Iterator<T>, answers: seq<Option<T>>)

  /** The invariant the class keeps for its private index. */
  predicate Valid<T>(it: Iterator<T>) {
    it.index <= |it.stakeholders|
  }

  /** The has-next state; its negation (for a valid iterator) is the exhausted state. */
  predicate HasNext<T>(it: Iterator<T>) {
    it.index < |it.stakeholders|
  }

  function Min(a: int, b: int): int {
    if a < b then a else b
  }

  /** The constructor: keeps the given list as it is and starts before its first element. */
  function New<T>(stakeholders: seq<T>): (it: Iterator<T>)
    ensures it.stakeholders == stakeholders && it.index == 0
    ensures Valid(it)
    ensures HasNext(it) <==> |stakeholders| > 0
  {
    Iterator(stakeholders, 0)
  }

  /** `next`: in the has-next state, the current element, moving one place on; in the
      exhausted state, the sentinel, staying where it is. The list is never changed. */
  function Next<T>(it: Iterator<T>): (s: Step<T>)
    ensures s.after.stakeholders == it.stakeholders
    ensures s.returned.Some? <==> HasNext(it)
    ensures HasNext(it) ==> s.returned == Some(it.stakeholders[it.index]) && s.after.index == it.index + 1
    ensures !HasNext(it) ==> s.after == it
    ensures Valid(it) ==> Valid(s.after)
  {
    if it.index < |it.stakeholders| then
      Step(Iterator(it.stakeholders, it.index + 1), Some(it.stakeholders[it.index]))
    else
      Step(it, None)
  }

  /** `k` successive calls of `next`: the iterator after the last one, and what each call
      returned, in call order. */
  function Run<T>(it: Iterator<T>, k: nat): (r: Trace<T>)
    ensures |r.answers| == k
    ensures r.after.stakeholders == it.stakeholders
    ensures Valid(it) ==> Valid(r.after)
    decreases k
  {
    if k == 0 then
      Trace(it, [])
    else
      var s := Next(it);
      var rest := Run(s.after, k - 1);
      Trace(rest.after, [s.returned] + rest.answers)
  }

  /** What `k` calls should return when the cursor is at `from`, stated without running
      the machine: each element still ahead, in list order, then the sentinel for every
      call past the end. */
  function Expected<T>(xs: seq<T>, from: nat, k: nat): seq<Option<T>> {
    seq(k, i requires 0 <= i < k => if from + i < |xs| then Some(xs[from + i]) else None)
  }

  /** One step of the reference: the first expected answer followed by the rest from the
      next position (or from the same position, once past the end). */
  lemma ExpectedUnfold<T>(xs: seq<T>, from: nat, k: nat)
    requires k > 0 && from <= |xs|
    ensures from < |xs| ==> Expected(xs, from, k) == [Some(xs[from])] + Expected(xs, from + 1, k - 1)
    ensures from == |xs| ==> Expected(xs, from, k) == [None] + Expected(xs, from, k - 1)
  {
    var e := Expected(xs, from, k);
    if from < |xs| {
      var t := [Some(xs[from])] + Expected(xs, from + 1, k - 1);
      assert forall i | 0 <= i < k :: e[i] == t[i];
    } else {
      var t := [None] + Expected(xs, from, k - 1);
      assert forall i | 0 <= i < k :: e[i] == t[i];
    }
  }

  /** The machine and the reference agree for every valid iterator and every number of
      calls: the calls return the remaining elements in order, then only the sentinel, and
      the index ends at `min(index + k, |stakeholders|)`. */
  lemma {:induction false} RunYieldsRemainingThenSentinel<T>(it: Iterator<T>, k: nat)
    requires Valid(it)
    ensures Run(it, k).answers == Expected(it.stakeholders, it.index, k)
    ensures Run(it, k).after.index == Min(it.index + k, |it.stakeholders|)
    decreases k
  {
    if k > 0 {
      var s := Next(it);
      RunYieldsRemainingThenSentinel(s.after, k - 1);
      ExpectedUnfold(it.stakeholders, it.index, k);
    }
  }

  /** Over a list of length N, the first N calls on a fresh iterator return the elements
      in their original order and call N+1 returns the sentinel, leaving it exhausted. */
  lemma SinglePassInOrder<T>(xs: seq<T>)
    ensures forall i :: 0 <= i < |xs| ==> Run(New(xs), |xs| + 1).answers[i] == Some(xs[i])
    ensures Run(New(xs), |xs| + 1).answers[|xs|] == None
    ensures Run(New(xs), |xs| + 1).after == Iterator(xs, |xs|)
  {
    RunYieldsRemainingThenSentinel(New(xs), |xs| + 1);
  }

  /** Exhaustion is terminal: from the exhausted state every later call returns the
      sentinel and the iterator does not move. */
  lemma ExhaustedStaysExhausted<T>(it: Iterator<T>, k: nat)
    requires Valid(it) && !HasNext(it)
    ensures Run(it, k).after == it
    ensures forall i :: 0 <= i < k ==> Run(it, k).answers[i] == None
  {
    RunYieldsRemainingThenSentinel(it, k);
  }

  /** The index only moves forward, one place per successful call, and never wraps. */
  lemma IndexMonotone<T>(it: Iterator<T>, j: nat, k: nat)
    requires Valid(it) && j <= k
    ensures Run(it, j).after.index <= Run(it, k).after.index <= |it.stakeholders|
    ensures Run(it, k).after.index - Run(it, j).after.index <= k - j
  {
    RunYieldsRemainingThenSentinel(it, j);
    RunYieldsRemainingThenSentinel(it, k);
  }

  /** The loop in `main`, `while (iterator.next() != null) { }`, over a fresh
      iterator: it stops after exactly `|xs| + 1` calls, having been handed every element
      in order, and leaves the iterator exhausted. */
  method DrainUntilSentinel<T>(xs: seq<T>) returns (seen: seq<T>, calls: nat, last: Iterator<T>)
    ensures seen == xs
    ensures calls == |xs| + 1
    ensures last == Iterator(xs, |xs|) && !HasNext(last)
  {
    var it := New(xs);
    var step := Next(it);
    it := step.after;
    calls := 1;
    seen := [];
    while step.returned.Some?
      invariant it.stakeholders == xs && Valid(it)
      invariant step.returned.Some? ==> 1 <= it.index && calls == it.index
      invariant step.returned.Some? ==> step.returned.value == xs[it.index - 1] && seen == xs[..it.index - 1]
      invariant step.returned.None? ==> it.index == |xs| && calls == |xs| + 1 && seen == xs
      decreases |xs| - it.index + (if step.returned.Some? then 1 else 0)
    {
      seen := seen + [step.returned.value];
      step := Next(it);
      it := step.after;
      calls := calls + 1;
    }
    last := it;
  }

  /** The scenario `main` runs: a two-element list yields the first element, the
      second, then the sentinel on the third call. */
  lemma TwoElementScenario<T>(a: T, b: T)
    ensures Run(New([a, b]), 3).answers == [Some(a), Some(b), None]
  {
    RunYieldsRemainingThenSentinel(New([a, b]), 3);
  }
}
