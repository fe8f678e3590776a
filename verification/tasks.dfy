/**
  The browser task list: the list operations behind the "add", checkbox
  and "delete" controls, the three-way view filter, the index each
  rendered row hands back to the list operations, and the periodic
  reminder.

  Rendering, local storage and the timers are browser I/O and are not
  modelled; a notification the client would post to the server is
  returned as a `Notification` value instead.
 */
module TaskList {
  import opened Js
  import opened Seqs
  import opened Text

  datatype Task = Task(text: string, completed: bool)

  /** The `{title, body}` the client posts to `/send-notification`. */
  datatype Notification = Notification(title: string, body: string)

  const NewTaskTitle := "Новая задача"
  const ReminderTitle := "Напоминание"

  predicate IsActive(t: Task) { !t.completed }

  /** The number of tasks not yet completed. */
  function ActiveCount(tasks: seq<Task>): nat {
    |Filter(tasks, IsActive)|
  }

  // ---------------------------------------------------------------------
  // addTask

  /** The task list, the text left in the input box, and the notification posted, after `addTask`. */
  datatype AddResult = AddResult(tasks: seq<Task>, input: string, notification: Option<Notification>)

  /**
    `addTask` with the input box holding `input`; `subscribed` says
    whether the client holds a push subscription. A non-blank input is
    appended trimmed and not completed, and the input box is cleared;
    a blank one changes nothing.
   */
  function AddTask(tasks: seq<Task>, input: string, subscribed: bool): (r: AddResult)
    ensures AllWhiteSpace(input) ==> r == AddResult(tasks, input, None)
    ensures !AllWhiteSpace(input) ==>
      && |r.tasks| == |tasks| + 1
      && r.tasks[..|tasks|] == tasks
      && r.tasks[|tasks|] == Task(Trim(input), false)
      && r.input == ""
    ensures r.notification.Some? <==> subscribed && !AllWhiteSpace(input)
    ensures r.notification.Some? ==>
      r.notification.value == Notification(NewTaskTitle, "Добавлена: \"" + Trim(input) + "\"")
  {
    var text := Trim(input);
    assert text == [] <==> AllWhiteSpace(input);
    if text != [] then
      var notification := if subscribed then Some(Notification(NewTaskTitle, "Добавлена: \"" + text + "\"")) else None;
      AddResult(tasks + [Task(text, false)], "", notification)
    else
      AddResult(tasks, input, None)
  }

  /** Adding a task adds one active task. */
  lemma AddTaskAddsActive(tasks: seq<Task>, input: string, subscribed: bool)
    ensures ActiveCount(AddTask(tasks, input, subscribed).tasks) == ActiveCount(tasks) + if AllWhiteSpace(input) then 0 else 1
  {
    if !AllWhiteSpace(input) {
      FilterAppend(tasks, Task(Trim(input), false), IsActive);
    }
  }

  // ---------------------------------------------------------------------
  // toggleTask and deleteTask

  /** `toggleTask(index)`; an index outside the list makes the source throw, and no rendered row hands one over. */
  function ToggleTask(tasks: seq<Task>, index: int): (r: seq<Task>)
    requires 0 <= index < |tasks|
    ensures |r| == |tasks|
    ensures r[index] == Task(tasks[index].text, !tasks[index].completed)
    ensures forall j :: 0 <= j < |tasks| && j != index ==> r[j] == tasks[j]
  {
    tasks[index := tasks[index].(completed := !tasks[index].completed)]
  }

  /** Toggling the same task twice restores the list. */
  lemma ToggleTwice(tasks: seq<Task>, index: int)
    requires 0 <= index < |tasks|
    ensures ToggleTask(ToggleTask(tasks, index), index) == tasks
  {
  }

  /** Toggling moves exactly one task into or out of the active ones. */
  lemma ToggleActiveCount(tasks: seq<Task>, index: int)
    requires 0 <= index < |tasks|
    ensures ActiveCount(ToggleTask(tasks, index)) == ActiveCount(tasks) + if tasks[index].completed then 1 else -1
  {
    var r := ToggleTask(tasks, index);
    assert tasks == tasks[..index] + [tasks[index]] + tasks[index + 1..];
    assert r == tasks[..index] + [r[index]] + tasks[index + 1..];
    FilterConcat(tasks[..index] + [tasks[index]], tasks[index + 1..], IsActive);
    FilterConcat(tasks[..index], [tasks[index]], IsActive);
    FilterConcat(tasks[..index] + [r[index]], tasks[index + 1..], IsActive);
    FilterConcat(tasks[..index], [r[index]], IsActive);
  }

  /**
    The start position `Array.prototype.splice` uses for a start argument
    `start` on a list of length `len`: negative values count from the end,
    and the result is clamped to `0..len`.
   */
  function SpliceStart(start: int, len: nat): (r: nat)
    ensures r <= len
    ensures 0 <= start <= len ==> r == start
    ensures start > len ==> r == len
    ensures -(len as int) <= start < 0 ==> r == len + start
    ensures start < -(len as int) ==> r == 0
  {
    if start < 0 then (if len + start < 0 then 0 else len + start)
    else if start < len then start else len
  }

  /** `deleteTask(index)`, i.e. `tasks.splice(index, 1)`. */
  function DeleteTask(tasks: seq<Task>, index: int): (r: seq<Task>)
    ensures var p := SpliceStart(index, |tasks|);
      p < |tasks| ==> r == tasks[..p] + tasks[p + 1..]
    ensures SpliceStart(index, |tasks|) == |tasks| ==> r == tasks
  {
    var p := SpliceStart(index, |tasks|);
    if p < |tasks| then tasks[..p] + tasks[p + 1..] else tasks
  }

  /**
    Deleting a position of the list removes exactly that task: one copy
    fewer of it, every other task kept, order preserved.
   */
  lemma DeleteRemovesOne(tasks: seq<Task>, index: int)
    requires 0 <= index < |tasks|
    ensures var r := DeleteTask(tasks, index);
      && |r| == |tasks| - 1
      && multiset(r) + multiset{tasks[index]} == multiset(tasks)
      && (forall j :: 0 <= j < index ==> r[j] == tasks[j])
      && (forall j :: index <= j < |r| ==> r[j] == tasks[j + 1])
  {
    assert tasks == tasks[..index] + [tasks[index]] + tasks[index + 1..];
  }

  /** An index past the end deletes nothing. */
  lemma DeletePastEnd(tasks: seq<Task>, index: int)
    requires index >= |tasks|
    ensures DeleteTask(tasks, index) == tasks
  {
  }

  /** Deleting the task just added restores the list. */
  lemma AddThenDelete(tasks: seq<Task>, input: string, subscribed: bool)
    requires !AllWhiteSpace(input)
    ensures DeleteTask(AddTask(tasks, input, subscribed).tasks, |tasks|) == tasks
  {
    var added := AddTask(tasks, input, subscribed).tasks;
    assert added[..|tasks|] == tasks;
  }

  // ---------------------------------------------------------------------
  // The view filter of renderTasks

  /** The callback `renderTasks` hands to `filter` for the current filter value. */
  function FilterTest(filter: string): (test: Task -> bool)
    ensures filter == "active" ==> forall t :: test(t) == IsActive(t)
    ensures filter == "completed" ==> forall t :: test(t) == !IsActive(t)
    ensures filter != "active" && filter != "completed" ==> forall t :: test(t)
  {
    (t: Task) => if filter == "active" then !t.completed else if filter == "completed" then t.completed else true
  }

  /** The tasks `renderTasks` shows under `filter`. */
  function Visible(tasks: seq<Task>, filter: string): (r: seq<Task>)
    ensures IsSubsequence(r, tasks)
    ensures filter == "active" ==> forall t :: multiset(r)[t] == if t.completed then 0 else multiset(tasks)[t]
    ensures filter == "completed" ==> forall t :: multiset(r)[t] == if t.completed then multiset(tasks)[t] else 0
    ensures filter == "active" ==> forall t :: t in r <==> t in tasks && !t.completed
    ensures filter == "completed" ==> forall t :: t in r <==> t in tasks && t.completed
    ensures filter != "active" && filter != "completed" ==> r == tasks
  {
    var r := Filter(tasks, FilterTest(filter));
    FilterIsSubsequence(tasks, FilterTest(filter));
    FilterMembers(tasks, FilterTest(filter));
    if filter != "active" && filter != "completed" then
      FilterKeepsAll(tasks, FilterTest(filter));
      r
    else
      r
  }

  /** The active and the completed views together hold every task once. */
  lemma ActivePlusCompleted(tasks: seq<Task>)
    ensures |Visible(tasks, "active")| + |Visible(tasks, "completed")| == |tasks|
    ensures |Visible(tasks, "active")| == ActiveCount(tasks)
  {
    FilterPartition(tasks, FilterTest("active"), FilterTest("completed"));
    FilterSamePredicate(tasks, FilterTest("active"), IsActive);
  }

  // ---------------------------------------------------------------------
  // Rendered rows

  /** A rendered row: the task it shows and the index its checkbox and delete button pass on. */
  datatype Row = Row(task: Task, index: nat)

  /** The rows of `renderTasks`: the `index` of `forEach` over the visible tasks. */
  function Rows(tasks: seq<Task>, filter: string): (r: seq<Row>)
    ensures |r| == |Visible(tasks, filter)|
    ensures forall k :: 0 <= k < |r| ==> r[k].task == Visible(tasks, filter)[k]
  {
    var visible := Visible(tasks, filter);
    seq(|visible|, k requires 0 <= k < |visible| => Row(visible[k], k))
  }

  /** A row index is the row's position in the view, which is always a valid position in the task list. */
  lemma RowIndexInRange(tasks: seq<Task>, filter: string, k: nat)
    requires k < |Rows(tasks, filter)|
    ensures Rows(tasks, filter)[k].index == k
    ensures Rows(tasks, filter)[k].index < |tasks|
  {
  }

  /** Under the "all" view (any value other than "active" and "completed") a row's index addresses the task it shows. */
  lemma RowIndexUnderAll(tasks: seq<Task>, filter: string, k: nat)
    requires filter != "active" && filter != "completed"
    requires k < |Rows(tasks, filter)|
    ensures tasks[Rows(tasks, filter)[k].index] == Rows(tasks, filter)[k].task
    ensures ToggleTask(tasks, Rows(tasks, filter)[k].index)[k].completed == !Rows(tasks, filter)[k].task.completed
  {
  }

  /**
    Under the other views a row's index is its view position, not the
    position of the task it shows: with one completed task before one
    active task, the only row of the "active" view shows the active task
    but its checkbox toggles the completed one.
   */
  lemma RowIndexUnderActiveView()
    ensures var tasks := [Task("a", true), Task("b", false)];
      && |Rows(tasks, "active")| == 1
      && Rows(tasks, "active")[0].task == Task("b", false)
      && tasks[Rows(tasks, "active")[0].index] == Task("a", true)
      && ToggleTask(tasks, Rows(tasks, "active")[0].index) == [Task("a", false), Task("b", false)]
  {
    var tasks := [Task("a", true), Task("b", false)];
    assert Visible(tasks, "active") == [Task("b", false)];
  }

  // ---------------------------------------------------------------------
  // The reminder of startReminderInterval

  /** The body of a reminder for `n` open tasks. */
  function ReminderBody(n: nat): string {
    "У вас " + Decimal(n) + " невыполненных задач!"
  }

  /** One tick of the reminder interval: a reminder naming the number of open tasks, sent only when there are any. */
  function Reminder(tasks: seq<Task>): (r: Option<Notification>)
    ensures r.Some? <==> exists i :: 0 <= i < |tasks| && !tasks[i].completed
    ensures r.Some? ==> r.value.title == ReminderTitle
    ensures r.Some? ==> exists digits: string ::
      && r.value.body == "У вас " + digits + " невыполненных задач!"
      && |digits| >= 1
      && (forall k :: 0 <= k < |digits| ==> IsDigit(digits[k]))
      && (digits[0] == '0' ==> digits == "0")
      && DecimalValue(digits) == ActiveCount(tasks)
  {
    var active := Filter(tasks, IsActive);
    FilterMembers(tasks, IsActive);
    if |active| > 0 then
      assert active[0] in tasks;
      DecimalRoundTrip(|active|);
      Some(Notification(ReminderTitle, ReminderBody(|active|)))
    else
      assert forall i :: 0 <= i < |tasks| ==> tasks[i] in tasks;
      None
  }
}
