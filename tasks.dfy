/** The task record and the pure operations the handlers apply to it. */
module Tasks {
  import opened Wrappers

  /**
    `{name, dueDate, categories, completed}`. The due date is the time value
    that `new Date(dueDate)` yields: `None` stands for the empty date input,
    which parses to an invalid date (NaN).
   */
  datatype Task = Task(name: string, dueDate: Option<int>, categories: seq<string>, completed: bool)

  /** `tasks[index].completed = !tasks[index].completed`, as a value. */
  function ToggleAt(ts: seq<Task>, i: nat): (r: seq<Task>)
    requires i < |ts|
    ensures |r| == |ts|
    ensures r[i].completed == !ts[i].completed
    ensures r[i].name == ts[i].name && r[i].dueDate == ts[i].dueDate
    ensures r[i].categories == ts[i].categories
    ensures forall k :: 0 <= k < |ts| && k != i ==> r[k] == ts[k]
  {
    ts[i := ts[i].(completed := !ts[i].completed)]
  }

  /** Toggling the same task twice restores the list. */
  lemma ToggleTwice(ts: seq<Task>, i: nat)
    requires i < |ts|
    ensures ToggleAt(ToggleAt(ts, i), i) == ts
  {
  }

  /**
    `d < now` on JavaScript time values: an invalid date is NaN, and every
    comparison with NaN is false.
   */
  function DateBefore(d: Option<int>, now: int): (before: bool)
    ensures before ==> d.Some?
    ensures d.Some? ==> (before <==> d.value < now)
  {
    match d
    case None => false
    case Some(t) => t < now
  }

  /** `new Date(task.dueDate) < new Date() && !task.completed`, with the clock read as `now`. */
  function IsOverdue(t: Task, now: int): (overdue: bool)
    ensures overdue ==> !t.completed
    ensures t.dueDate.None? ==> !overdue
    ensures overdue <==> t.dueDate.Some? && t.dueDate.value < now && !t.completed
  {
    DateBefore(t.dueDate, now) && !t.completed
  }

  /**
    The category options left selected after `editTask`: those, in option
    order, that the task's own label list includes. The options are the
    current categories, so labels of removed categories are not among them.
   */
  function SelectedOptions(options: seq<string>, labels: seq<string>): (r: seq<string>)
    ensures |r| <= |options|
    ensures forall c :: c in r <==> c in options && c in labels
  {
    if options == [] then []
    else
      (if options[0] in labels then [options[0]] else []) + SelectedOptions(options[1..], labels)
  }

  /** Every copy of a matching option is selected (duplicate categories give duplicate labels). */
  lemma {:induction false} SelectedOptionsMultiset(options: seq<string>, labels: seq<string>, c: string)
    ensures multiset(SelectedOptions(options, labels))[c] == if c in labels then multiset(options)[c] else 0
  {
    if options != [] {
      assert options == [options[0]] + options[1..];
      SelectedOptionsMultiset(options[1..], labels, c);
    }
  }

  /** Selection keeps option order: it distributes over a split of the option list. */
  lemma {:induction false} SelectedOptionsConcat(a: seq<string>, b: seq<string>, labels: seq<string>)
    ensures SelectedOptions(a + b, labels) == SelectedOptions(a, labels) + SelectedOptions(b, labels)
  {
    if a == [] {
      assert a + b == b;
    } else {
      var head := if a[0] in labels then [a[0]] else [];
      assert (a + b)[0] == a[0] && (a + b)[1..] == a[1..] + b;
      assert SelectedOptions(a + b, labels) == head + SelectedOptions(a[1..] + b, labels);
      SelectedOptionsConcat(a[1..], b, labels);
      assert head + (SelectedOptions(a[1..], labels) + SelectedOptions(b, labels))
          == (head + SelectedOptions(a[1..], labels)) + SelectedOptions(b, labels);
    }
  }

  /** The form fields that `editTask` fills in from a task. */
  datatype EditForm = EditForm(name: string, dueDate: Option<int>, selected: seq<string>)
}
