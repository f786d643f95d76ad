/**
  The script's module-level state (`categories`, `tasks`, `editingTaskIndex`)
  and the handlers that change it in place. Persistence to local storage, the
  page redraws and the chart are not part of this model; the acknowledgement
  each handler shows is returned as an `Alert`.
 */
module TodoState {
  import opened Wrappers
  import opened Text
  import opened Lists
  import opened Tasks

  /** The message a handler passes to `alert`. */
  datatype Alert = CategoryAdded | CategoryRemoved | TaskAdded | TaskUpdated | TaskRemoved | EmptyTaskName

  class Store {
    var categories: seq<string>
    var tasks: seq<Task>
    /**
      `None` is the Adding state, `Some(i)` the Editing state. Nothing keeps
      `i` in range: removing a task leaves it as it was.
     */
    var editingTaskIndex: Option<nat>

    /** Every stored task name is non-empty and already trimmed. */
    predicate TaskNamesTrimmed()
      reads this
    {
      forall k :: 0 <= k < |tasks| ==> tasks[k].name != [] && IsTrimmed(tasks[k].name)
    }

    /**
      Start-up: `JSON.parse(localStorage.getItem(key)) || []`, where `None`
      is a key that was never written; no edit is in progress.
     */
    constructor (storedCategories: Option<seq<string>>, storedTasks: Option<seq<Task>>)
      ensures categories == (if storedCategories.Some? then storedCategories.value else [])
      ensures tasks == (if storedTasks.Some? then storedTasks.value else [])
      ensures editingTaskIndex == None
    {
      categories := if storedCategories.Some? then storedCategories.value else [];
      tasks := if storedTasks.Some? then storedTasks.value else [];
      editingTaskIndex := None;
    }

    /** The add-category button: append the trimmed input unless it is empty. */
    method AddCategory(input: string) returns (alert: Option<Alert>)
      modifies this`categories
      ensures Trim(input) != [] ==> categories == old(categories) + [Trim(input)] && alert == Some(CategoryAdded)
      ensures Trim(input) == [] ==> categories == old(categories) && alert == None
      ensures tasks == old(tasks) && editingTaskIndex == old(editingTaskIndex)
    {
      var category := Trim(input);
      if category != [] {
        categories := categories + [category];
        alert := Some(CategoryAdded);
      } else {
        alert := None;
      }
    }

    /** `removeCategory(index)`: tasks keep the label (no cascade). */
    method RemoveCategory(index: nat) returns (alert: Alert)
      modifies this`categories
      ensures categories == RemoveAt(old(categories), index)
      ensures tasks == old(tasks) && editingTaskIndex == old(editingTaskIndex)
      ensures alert == CategoryRemoved
    {
      categories := RemoveAt(categories, index);
      alert := CategoryRemoved;
    }

    /**
      The add/update-task button. An empty trimmed name changes nothing; in
      the Editing state the task under edit is replaced, with its completion
      reset, and the state returns to Adding; in the Adding state the new
      task is appended.
     */
    method AddOrUpdateTask(nameInput: string, dueDate: Option<int>, selected: seq<string>) returns (alert: Alert)
      requires Trim(nameInput) != [] && editingTaskIndex.Some? ==> editingTaskIndex.value < |tasks|
      modifies this`tasks, this`editingTaskIndex
      ensures Trim(nameInput) == [] ==>
        && alert == EmptyTaskName
        && tasks == old(tasks)
        && editingTaskIndex == old(editingTaskIndex)
      ensures Trim(nameInput) != [] && old(editingTaskIndex).Some? ==>
        && alert == TaskUpdated
        && tasks == old(tasks)[old(editingTaskIndex).value := Task(Trim(nameInput), dueDate, selected, false)]
        && editingTaskIndex == None
      ensures Trim(nameInput) != [] && old(editingTaskIndex).None? ==>
        && alert == TaskAdded
        && tasks == old(tasks) + [Task(Trim(nameInput), dueDate, selected, false)]
        && editingTaskIndex == None
      ensures categories == old(categories)
      ensures old(TaskNamesTrimmed()) ==> TaskNamesTrimmed()
    {
      var taskName := Trim(nameInput);
      if taskName != [] {
        var task := Task(taskName, dueDate, selected, false);
        if editingTaskIndex.Some? {
          tasks := tasks[editingTaskIndex.value := task];
          editingTaskIndex := None;
          alert := TaskUpdated;
        } else {
          tasks := tasks + [task];
          alert := TaskAdded;
        }
      } else {
        alert := EmptyTaskName;
      }
    }

    /** `toggleTask(index)`: flip one completion flag. */
    method ToggleTask(index: nat)
      requires index < |tasks|
      modifies this`tasks
      ensures tasks == ToggleAt(old(tasks), index)
      ensures categories == old(categories) && editingTaskIndex == old(editingTaskIndex)
      ensures old(TaskNamesTrimmed()) ==> TaskNamesTrimmed()
    {
      tasks := ToggleAt(tasks, index);
    }

    /**
      `editTask(index)`: enter the Editing state for task `index` and return
      what the form is filled with. No task changes.
     */
    method EditTask(index: nat) returns (form: EditForm)
      requires index < |tasks|
      modifies this`editingTaskIndex
      ensures editingTaskIndex == Some(index)
      ensures form == EditForm(tasks[index].name, tasks[index].dueDate,
                               SelectedOptions(categories, tasks[index].categories))
      ensures tasks == old(tasks) && categories == old(categories)
    {
      var task := tasks[index];
      form := EditForm(task.name, task.dueDate, SelectedOptions(categories, task.categories));
      editingTaskIndex := Some(index);
    }

    /** `removeTask(index)`: the editing pointer is not adjusted. */
    method RemoveTask(index: nat) returns (alert: Alert)
      modifies this`tasks
      ensures tasks == RemoveAt(old(tasks), index)
      ensures categories == old(categories) && editingTaskIndex == old(editingTaskIndex)
      ensures old(TaskNamesTrimmed()) ==> TaskNamesTrimmed()
      ensures alert == TaskRemoved
    {
      tasks := RemoveAt(tasks, index);
      alert := TaskRemoved;
    }
  }

  /**
    Edit task `i` and submit the form as filled in: the task keeps its name
    and due date, loses the labels of removed categories, and is no longer
    completed.
   */
  method EditAndResubmit(store: Store, i: nat)
    requires i < |store.tasks| && store.TaskNamesTrimmed()
    modifies store
    ensures |store.tasks| == |old(store.tasks)|
    ensures store.tasks == old(store.tasks)[i := Task(old(store.tasks[i].name), old(store.tasks[i].dueDate),
                                                      SelectedOptions(old(store.categories), old(store.tasks[i].categories)),
                                                      false)]
    ensures store.categories == old(store.categories)
    ensures store.editingTaskIndex == None && store.TaskNamesTrimmed()
  {
    var form := store.EditTask(i);
    TrimOfTrimmed(form.name);
    var alert := store.AddOrUpdateTask(form.name, form.dueDate, form.selected);
    assert alert == TaskUpdated;
  }

  /**
    Removing the task under edit leaves the pointer on its successor, so the
    next submit overwrites a task the user never chose to edit.
   */
  method StaleEditOverwritesNext(first: Task, second: Task) returns (after: seq<Task>)
    ensures after == [Task("X", None, [], false)]
  {
    var store := new Store(None, Some([first, second]));
    var form := store.EditTask(0);
    var removed := store.RemoveTask(0);
    assert store.tasks == [second];
    assert !IsWhiteSpace('X');
    TrimOfTrimmed("X");
    var alert := store.AddOrUpdateTask("X", None, []);
    after := store.tasks;
  }
}
