/**
  The per-category completion figures that `updateAnalytics` prints and
  `renderChart` plots. Both compute the same rates with the same expression,
  so one definition serves both.
 */
module Analytics {
  import opened Wrappers
  import opened Lists
  import opened Tasks

  /** `tasks.filter(task => task.categories.includes(c))`, order kept. */
  function TaggedWith(ts: seq<Task>, c: string): (r: seq<Task>)
    ensures |r| <= |ts|
    ensures forall t :: t in r ==> c in t.categories
  {
    if ts == [] then []
    else
      (if c in ts[0].categories then [ts[0]] else []) + TaggedWith(ts[1..], c)
  }

  /** `ts.filter(task => task.completed)`, order kept. */
  function CompletedOnly(ts: seq<Task>): (r: seq<Task>)
    ensures |r| <= |ts|
    ensures forall t :: t in r ==> t.completed
  {
    if ts == [] then []
    else
      (if ts[0].completed then [ts[0]] else []) + CompletedOnly(ts[1..])
  }

  /** The filter keeps every copy of a tagged task and no copy of any other. */
  lemma {:induction false} TaggedWithMultiset(ts: seq<Task>, c: string, t: Task)
    ensures multiset(TaggedWith(ts, c))[t] == if c in t.categories then multiset(ts)[t] else 0
  {
    if ts != [] {
      assert ts == [ts[0]] + ts[1..];
      TaggedWithMultiset(ts[1..], c, t);
    }
  }

  /** The filter keeps every copy of a completed task and no copy of any other. */
  lemma {:induction false} CompletedOnlyMultiset(ts: seq<Task>, t: Task)
    ensures multiset(CompletedOnly(ts))[t] == if t.completed then multiset(ts)[t] else 0
  {
    if ts != [] {
      assert ts == [ts[0]] + ts[1..];
      CompletedOnlyMultiset(ts[1..], t);
    }
  }

  /**
    One category's figures: how many tasks carry its label and how many of
    those are completed. The rate is `completed / Divisor()`.
   */
  datatype CompletionRate = CompletionRate(category: string, completed: nat, tagged: nat) {

    /** `categoryTasks.length || 1`: a category with no tasks divides by one. */
    function Divisor(): nat {
      if tagged == 0 then 1 else tagged
    }

    /** The rate `completed / Divisor()` lies in [0, 1]. */
    predicate InUnitRange() {
      completed <= Divisor()
    }
  }

  /** The rate of category `c` over the task list `ts`. */
  function RateOf(ts: seq<Task>, c: string): (r: CompletionRate)
    ensures r.category == c
    ensures r.completed <= r.tagged <= |ts|
    ensures r.tagged == 0 ==> r.completed == 0 && r.Divisor() == 1
  {
    var tagged := TaggedWith(ts, c);
    CompletionRate(c, |CompletedOnly(tagged)|, |tagged|)
  }

  /** `categories.map(...)`: one rate per category, in category order. */
  function CompletionRates(cats: seq<string>, ts: seq<Task>): (r: seq<CompletionRate>)
    ensures |r| == |cats|
    ensures forall i :: 0 <= i < |r| ==> r[i] == RateOf(ts, cats[i])
    ensures forall i :: 0 <= i < |r| ==> r[i].category == cats[i]
    ensures forall i :: 0 <= i < |r| ==> r[i].InUnitRange()
    ensures forall i :: 0 <= i < |r| && r[i].tagged == 0 ==> r[i].completed == 0
  {
    seq(|cats|, i requires 0 <= i < |cats| => RateOf(ts, cats[i]))
  }

  lemma {:induction false} TaggedWithConcat(a: seq<Task>, b: seq<Task>, c: string)
    ensures TaggedWith(a + b, c) == TaggedWith(a, c) + TaggedWith(b, c)
  {
    if a == [] {
      assert a + b == b;
    } else {
      var head := if c in a[0].categories then [a[0]] else [];
      assert (a + b)[0] == a[0] && (a + b)[1..] == a[1..] + b;
      assert TaggedWith(a + b, c) == head + TaggedWith(a[1..] + b, c);
      TaggedWithConcat(a[1..], b, c);
      assert head + (TaggedWith(a[1..], c) + TaggedWith(b, c))
          == (head + TaggedWith(a[1..], c)) + TaggedWith(b, c);
    }
  }

  lemma {:induction false} CompletedOnlyConcat(a: seq<Task>, b: seq<Task>)
    ensures CompletedOnly(a + b) == CompletedOnly(a) + CompletedOnly(b)
  {
    if a == [] {
      assert a + b == b;
    } else {
      var head := if a[0].completed then [a[0]] else [];
      assert (a + b)[0] == a[0] && (a + b)[1..] == a[1..] + b;
      assert CompletedOnly(a + b) == head + CompletedOnly(a[1..] + b);
      CompletedOnlyConcat(a[1..], b);
      assert head + (CompletedOnly(a[1..]) + CompletedOnly(b))
          == (head + CompletedOnly(a[1..])) + CompletedOnly(b);
    }
  }

  /** Both counts of a category add up over a split of the task list. */
  lemma RateOfConcat(a: seq<Task>, b: seq<Task>, c: string)
    ensures RateOf(a + b, c).tagged == RateOf(a, c).tagged + RateOf(b, c).tagged
    ensures RateOf(a + b, c).completed == RateOf(a, c).completed + RateOf(b, c).completed
  {
    TaggedWithConcat(a, b, c);
    CompletedOnlyConcat(TaggedWith(a, c), TaggedWith(b, c));
  }

  /** What a single task contributes to category `c`. */
  lemma RateOfSingle(t: Task, c: string)
    ensures RateOf([t], c).tagged == (if c in t.categories then 1 else 0)
    ensures RateOf([t], c).completed == (if c in t.categories && t.completed then 1 else 0)
  {
  }

  /** The counts of `c` over `a + [t] + b` split into the three parts. */
  lemma RateAround(a: seq<Task>, t: Task, b: seq<Task>, c: string)
    ensures RateOf(a + [t] + b, c).tagged
         == RateOf(a, c).tagged + (if c in t.categories then 1 else 0) + RateOf(b, c).tagged
    ensures RateOf(a + [t] + b, c).completed
         == RateOf(a, c).completed + (if c in t.categories && t.completed then 1 else 0) + RateOf(b, c).completed
  {
    RateOfConcat(a + [t], b, c);
    RateOfConcat(a, [t], c);
    RateOfSingle(t, c);
  }

  /**
    Appending a new (not completed) task adds one to the tagged count of each
    category it carries and leaves every completed count alone.
   */
  lemma RateAfterAppend(ts: seq<Task>, t: Task, c: string)
    requires !t.completed
    ensures RateOf(ts + [t], c).tagged == RateOf(ts, c).tagged + (if c in t.categories then 1 else 0)
    ensures RateOf(ts + [t], c).completed == RateOf(ts, c).completed
  {
    RateAround(ts, t, [], c);
    assert ts + [t] + [] == ts + [t];
  }

  /**
    Replacing task `i` by `t` (the update path) swaps its contribution for
    that of `t`.
   */
  lemma RateAfterReplace(ts: seq<Task>, i: nat, t: Task, c: string)
    requires i < |ts|
    ensures RateOf(ts[i := t], c).tagged + (if c in ts[i].categories then 1 else 0)
         == RateOf(ts, c).tagged + (if c in t.categories then 1 else 0)
    ensures RateOf(ts[i := t], c).completed + (if c in ts[i].categories && ts[i].completed then 1 else 0)
         == RateOf(ts, c).completed + (if c in t.categories && t.completed then 1 else 0)
  {
    assert ts == ts[..i] + [ts[i]] + ts[i + 1..];
    assert ts[i := t] == ts[..i] + [t] + ts[i + 1..];
    RateAround(ts[..i], ts[i], ts[i + 1..], c);
    RateAround(ts[..i], t, ts[i + 1..], c);
  }

  /**
    Toggling task `i` never changes a tagged count; for each category the task
    carries it moves the completed count by one in the direction of the flip,
    and every other category keeps its figures.
   */
  lemma RateAfterToggle(ts: seq<Task>, i: nat, c: string)
    requires i < |ts|
    ensures RateOf(ToggleAt(ts, i), c).tagged == RateOf(ts, c).tagged
    ensures c !in ts[i].categories ==> RateOf(ToggleAt(ts, i), c) == RateOf(ts, c)
    ensures c in ts[i].categories && !ts[i].completed
            ==> RateOf(ToggleAt(ts, i), c).completed == RateOf(ts, c).completed + 1
    ensures c in ts[i].categories && ts[i].completed
            ==> RateOf(ToggleAt(ts, i), c).completed + 1 == RateOf(ts, c).completed
  {
    RateAfterReplace(ts, i, ToggleAt(ts, i)[i], c);
    assert ToggleAt(ts, i) == ts[i := ToggleAt(ts, i)[i]];
  }

  /** Removing task `i` (as `removeTask` does) takes its contribution away from every category. */
  lemma RateAfterRemove(ts: seq<Task>, i: nat, c: string)
    requires i < |ts|
    ensures RateOf(RemoveAt(ts, i), c).tagged + (if c in ts[i].categories then 1 else 0)
         == RateOf(ts, c).tagged
    ensures RateOf(RemoveAt(ts, i), c).completed + (if c in ts[i].categories && ts[i].completed then 1 else 0)
         == RateOf(ts, c).completed
  {
    assert ts == ts[..i] + [ts[i]] + ts[i + 1..];
    assert RemoveAt(ts, i) == ts[..i] + ts[i + 1..];
    RateAround(ts[..i], ts[i], ts[i + 1..], c);
    RateOfConcat(ts[..i], ts[i + 1..], c);
  }

  /** A new category gets one more rate at the end; the earlier rates stay. */
  lemma RatesAfterAddCategory(cats: seq<string>, ts: seq<Task>, c: string)
    ensures CompletionRates(cats + [c], ts) == CompletionRates(cats, ts) + [RateOf(ts, c)]
  {
  }

  /** Removing category `i` (as `removeCategory` does) removes exactly the `i`-th rate. */
  lemma RatesAfterRemoveCategory(cats: seq<string>, ts: seq<Task>, i: nat)
    requires i < |cats|
    ensures CompletionRates(RemoveAt(cats, i), ts) == RemoveAt(CompletionRates(cats, ts), i)
  {
  }

  /**
    Categories Work and Home, one open task tagged Work: both rates are 0
    (Home by the divisor guard). Completing the task moves Work to 1/1 and
    leaves Home at 0.
   */
  lemma WorkHomeScenario(due: Option<int>)
    ensures CompletionRates(["Work", "Home"], [Task("X", due, ["Work"], false)])
         == [CompletionRate("Work", 0, 1), CompletionRate("Home", 0, 0)]
    ensures CompletionRates(["Work", "Home"], ToggleAt([Task("X", due, ["Work"], false)], 0))
         == [CompletionRate("Work", 1, 1), CompletionRate("Home", 0, 0)]
  {
  }
}
