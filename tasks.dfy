/** The to-do side of the application: tasks in groups, the grouped list
    (`ToDoList/TaskList.swift`), the plain list (`TaskList.swift`), the
    in-memory list of `ContentView`, and the group tabs with their counts.
    The persistent store behind `@Query` is a sequence of tasks in query
    order; inserting appends and deleting removes the task with that id. */
module Tasks {
  import opened Common

  /** The tabs; `All` is a view over every task, not a group a task joins. */
  datatype TaskGroup = All | Inbox | Today | Future

  /** A task; the stored model lacks `group` although the lists read it, so
      it is added here. `id` stands for the task's `UUID`. */
  datatype Task = Task(id: nat, name: string, isCompleted: bool, group: TaskGroup)

  function InGroup(g: TaskGroup): Task -> bool
  {
    (t: Task) => t.group == g
  }

  function NotIn(ids: set<nat>): Task -> bool
  {
    (t: Task) => t.id !in ids
  }

  /** No two stored tasks share an id, and none is filed under `All`. */
  predicate WellFormed(tasks: seq<Task>)
  {
    (forall i, j :: 0 <= i < j < |tasks| ==> tasks[i].id != tasks[j].id) &&
    (forall i :: 0 <= i < |tasks| ==> tasks[i].group != All)
  }

  predicate FreshId(tasks: seq<Task>, id: nat)
  {
    forall i :: 0 <= i < |tasks| ==> tasks[i].id != id
  }

  /** `filteredTasks`: every task for `All`, otherwise the tasks of the
      selected group, in query order. */
  function FilteredTasks(tasks: seq<Task>, selectedGroup: TaskGroup): (r: seq<Task>)
    ensures selectedGroup != All ==> forall t :: t in r <==> t in tasks && t.group == selectedGroup
    ensures forall t :: t in r ==> t in tasks
    ensures selectedGroup != All ==>
              forall t: Task :: t.group == selectedGroup ==> multiset(r)[t] == multiset(tasks)[t]
  {
    if selectedGroup == All then tasks else Filter(tasks, InGroup(selectedGroup))
  }

  /** The list keeps query order: a task added at the end of the store shows
      at the end of every list it belongs to and changes no other list. */
  lemma FilteredTasksAppend(tasks: seq<Task>, t: Task, g: TaskGroup)
    ensures FilteredTasks(tasks + [t], g) ==
            FilteredTasks(tasks, g) + if g == All || t.group == g then [t] else []
  {
    if g != All {
      FilterAppend(tasks, [t], InGroup(g));
    }
  }

  /** The group a new task joins: the selected group, or the inbox when all
      tasks are shown. */
  function NewTaskGroup(selectedGroup: TaskGroup): (g: TaskGroup)
    ensures g != All
    ensures selectedGroup == All ==> g == Inbox
    ensures selectedGroup != All ==> g == selectedGroup
  {
    if selectedGroup == All then Inbox else selectedGroup
  }

  /** A task added from a list shows at the end of that same list. */
  lemma NewTaskShowsInItsList(tasks: seq<Task>, selectedGroup: TaskGroup, id: nat, name: string)
    ensures var t := Task(id, name, false, NewTaskGroup(selectedGroup));
            FilteredTasks(tasks + [t], selectedGroup) == FilteredTasks(tasks, selectedGroup) + [t]
  {
    FilteredTasksAppend(tasks, Task(id, name, false, NewTaskGroup(selectedGroup)), selectedGroup);
  }

  /** The ids of the shown tasks at the given offsets. */
  function IdsAt(shown: seq<Task>, offsets: seq<int>): set<nat>
    requires forall k :: 0 <= k < |offsets| ==> 0 <= offsets[k] < |shown|
  {
    if offsets == [] then {}
    else IdsAt(shown, offsets[..|offsets| - 1]) + {shown[offsets[|offsets| - 1]].id}
  }

  lemma {:induction false} IdsAtMembers(shown: seq<Task>, offsets: seq<int>, x: nat)
    requires forall k :: 0 <= k < |offsets| ==> 0 <= offsets[k] < |shown|
    ensures x in IdsAt(shown, offsets) <==> exists k :: 0 <= k < |offsets| && shown[offsets[k]].id == x
  {
    if offsets != [] {
      var init := offsets[..|offsets| - 1];
      IdsAtMembers(shown, init, x);
      if x in IdsAt(shown, init) {
        var k :| 0 <= k < |init| && shown[init[k]].id == x;
        assert shown[offsets[k]].id == x;
      }
    }
  }

  /** What deleting from the grouped list leaves: the tasks at the offsets
      of the shown list are gone, everything else stays, and a task outside
      the selected group is never deleted. */
  lemma DeleteRemovesShownTasks(tasks: seq<Task>, selectedGroup: TaskGroup, offsets: seq<int>)
    requires WellFormed(tasks)
    requires forall k :: 0 <= k < |offsets| ==> 0 <= offsets[k] < |FilteredTasks(tasks, selectedGroup)|
    ensures var shown := FilteredTasks(tasks, selectedGroup);
            var after := Filter(tasks, NotIn(IdsAt(shown, offsets)));
            (forall t :: t in after <==> t in tasks && forall k :: 0 <= k < |offsets| ==> t != shown[offsets[k]]) &&
            (selectedGroup != All ==> forall t :: t in tasks && t.group != selectedGroup ==> t in after)
  {
    var shown := FilteredTasks(tasks, selectedGroup);
    var ids := IdsAt(shown, offsets);
    forall t | t in tasks
      ensures t.id in ids <==> exists k :: 0 <= k < |offsets| && t == shown[offsets[k]]
    {
      IdsAtMembers(shown, offsets, t.id);
      if t.id in ids {
        var k :| 0 <= k < |offsets| && shown[offsets[k]].id == t.id;
        var u := shown[offsets[k]];
        assert u in tasks;
        var i :| 0 <= i < |tasks| && tasks[i] == t;
        var j :| 0 <= j < |tasks| && tasks[j] == u;
        assert i == j;
      }
    }
  }

  /** `count(for:)` of the tabs: all tasks for `All`, otherwise the tasks of
      that group. */
  function Count(tasks: seq<Task>, g: TaskGroup): (n: nat)
    ensures n == |FilteredTasks(tasks, g)|
    ensures n <= |tasks|
  {
    if g == All then |tasks| else |Filter(tasks, InGroup(g))|
  }

  /** Counting one task at a time. */
  lemma CountHead(tasks: seq<Task>, g: TaskGroup)
    requires tasks != [] && g != All
    ensures Count(tasks, g) == Count(tasks[1..], g) + if tasks[0].group == g then 1 else 0
  {
  }

  /** When no task is filed under `All`, the three group tabs together count
      every task once. */
  lemma {:induction false} CountsPartition(tasks: seq<Task>)
    requires forall i :: 0 <= i < |tasks| ==> tasks[i].group != All
    ensures Count(tasks, Inbox) + Count(tasks, Today) + Count(tasks, Future) == Count(tasks, All)
  {
    if tasks != [] {
      CountsPartition(tasks[1..]);
      CountHead(tasks, Inbox);
      CountHead(tasks, Today);
      CountHead(tasks, Future);
      assert tasks[0].group != All;
    }
  }

  /** The grouped list (`ToDoList/TaskList.swift`): the store, the text
      field, and the group it shows. */
  class GroupedTaskList {
    var tasks: seq<Task>
    var fillerText: string
    const selectedGroup: TaskGroup

    constructor (stored: seq<Task>, selectedGroup: TaskGroup)
      requires WellFormed(stored)
      ensures tasks == stored && fillerText == "" && this.selectedGroup == selectedGroup
      ensures WellFormed(tasks)
    {
      tasks := stored;
      fillerText := "";
      this.selectedGroup := selectedGroup;
    }

    /** `addTask(text:)`: nothing when the field is empty; otherwise one new
        task named `text` in `NewTaskGroup(selectedGroup)`, and the field is
        cleared. */
    method AddTask(text: string, newId: nat)
      requires WellFormed(tasks) && FreshId(tasks, newId)
      modifies this`tasks, this`fillerText
      ensures WellFormed(tasks)
      ensures old(fillerText) == "" ==> tasks == old(tasks) && fillerText == ""
      ensures old(fillerText) != "" ==>
                tasks == old(tasks) + [Task(newId, text, false, NewTaskGroup(selectedGroup))] &&
                fillerText == ""
    {
      if fillerText == "" {
        return;
      }
      var taskGroup := if selectedGroup == All then Inbox else selectedGroup;
      tasks := tasks + [Task(newId, text, false, taskGroup)];
      fillerText := "";
    }

    /** `deleteTask(at:)`: each offset picks a task of the shown list, read
        before any deletion, and that task is deleted from the store. */
    method DeleteTask(offsets: seq<int>)
      requires WellFormed(tasks)
      requires forall k :: 0 <= k < |offsets| ==> 0 <= offsets[k] < |FilteredTasks(tasks, selectedGroup)|
      modifies this`tasks
      ensures WellFormed(tasks)
      ensures tasks == Filter(old(tasks), NotIn(IdsAt(FilteredTasks(old(tasks), selectedGroup), offsets)))
    {
      var shown := FilteredTasks(tasks, selectedGroup);
      ghost var before := tasks;
      FilterAll(before, NotIn({}));
      for k := 0 to |offsets|
        invariant tasks == Filter(before, NotIn(IdsAt(shown, offsets[..k])))
      {
        var task := shown[offsets[k]];
        DeleteStep(before, shown, offsets, k);
        tasks := Filter(tasks, NotIn({task.id}));
      }
      assert offsets[..|offsets|] == offsets;
      FilterKeepsWellFormed(before, NotIn(IdsAt(shown, offsets)));
    }

    /** A row's own delete button: the task shown at `index` is deleted from
        the store, whatever group it shows under. */
    method RowDeleteTapped(index: int)
      requires WellFormed(tasks)
      requires 0 <= index < |FilteredTasks(tasks, selectedGroup)|
      modifies this`tasks
      ensures WellFormed(tasks)
      ensures tasks == Filter(old(tasks), NotIn({FilteredTasks(old(tasks), selectedGroup)[index].id}))
    {
      var task := FilteredTasks(tasks, selectedGroup)[index];
      FilterKeepsWellFormed(tasks, NotIn({task.id}));
      tasks := Filter(tasks, NotIn({task.id}));
    }
  }

  /** One pass of the deletion loop: deleting the next picked task from what
      the earlier passes left equals deleting all picked tasks so far. */
  lemma DeleteStep(before: seq<Task>, shown: seq<Task>, offsets: seq<int>, k: int)
    requires 0 <= k < |offsets|
    requires forall k :: 0 <= k < |offsets| ==> 0 <= offsets[k] < |shown|
    ensures Filter(Filter(before, NotIn(IdsAt(shown, offsets[..k]))), NotIn({shown[offsets[k]].id})) ==
            Filter(before, NotIn(IdsAt(shown, offsets[..k + 1])))
  {
    var done := IdsAt(shown, offsets[..k]);
    var id := shown[offsets[k]].id;
    assert offsets[..k + 1][..k] == offsets[..k];
    assert IdsAt(shown, offsets[..k + 1]) == done + {id};
    FilterFilter(before, NotIn(done), NotIn({id}), NotIn(done + {id}));
  }

  /** Removing tasks from a well-formed store leaves it well-formed. */
  lemma {:induction false} FilterKeepsWellFormed(tasks: seq<Task>, p: Task -> bool)
    requires WellFormed(tasks)
    ensures WellFormed(Filter(tasks, p))
  {
    if tasks != [] {
      var tail := tasks[1..];
      assert WellFormed(tail) by {
        forall i, j | 0 <= i < j < |tail| ensures tail[i].id != tail[j].id {
          assert tasks[i + 1].id != tasks[j + 1].id;
        }
      }
      FilterKeepsWellFormed(tail, p);
      var rest := Filter(tail, p);
      assert Filter(tasks, p) == if p(tasks[0]) then [tasks[0]] + rest else rest;
      if p(tasks[0]) {
        forall i | 0 <= i < |tail| ensures tail[i].id != tasks[0].id {
          assert tasks[0].id != tasks[i + 1].id;
        }
        ConsWellFormed(tasks[0], rest, tail);
      }
    }
  }

  lemma ConsWellFormed(t: Task, rest: seq<Task>, tail: seq<Task>)
    requires WellFormed(rest) && t.group != All
    requires forall x :: x in rest ==> x in tail
    requires forall i :: 0 <= i < |tail| ==> tail[i].id != t.id
    ensures WellFormed([t] + rest)
  {
    var r := [t] + rest;
    forall j | 0 < j < |r| ensures r[j].id != t.id {
      assert r[j] == rest[j - 1];
      assert r[j] in tail;
    }
  }

  /** The plain list (`TaskList.swift`): every stored task, unfiltered. */
  class PlainTaskList {
    var tasks: seq<Task>
    var fillerText: string

    constructor (stored: seq<Task>)
      ensures tasks == stored && fillerText == ""
    {
      tasks := stored;
      fillerText := "";
    }

    /** `addTask(text:)`: nothing when the field is empty; otherwise one new
        task named `text`, and the field is cleared. */
    method AddTask(text: string, newId: nat)
      requires WellFormed(tasks) && FreshId(tasks, newId)
      modifies this`tasks, this`fillerText
      ensures WellFormed(tasks)
      ensures old(fillerText) == "" ==> tasks == old(tasks) && fillerText == ""
      ensures old(fillerText) != "" ==>
                tasks == old(tasks) + [Task(newId, text, false, Inbox)] && fillerText == ""
    {
      if fillerText == "" {
        return;
      }
      tasks := tasks + [Task(newId, text, false, Inbox)];
      fillerText := "";
    }
  }

  /** The indices below `n` that are not in `offsets`, ascending. */
  function KeptIndices(n: nat, offsets: set<int>): (r: seq<int>)
    ensures |r| <= n
    ensures forall j :: 0 <= j < |r| ==> 0 <= r[j] < n
    ensures forall i :: i in r <==> 0 <= i < n && i !in offsets
    ensures forall j, k :: 0 <= j < k < |r| ==> r[j] < r[k]
  {
    if n == 0 then []
    else
      var prev := KeptIndices(n - 1, offsets);
      assert forall j :: 0 <= j < |prev| ==> prev[j] < n - 1;
      prev + if n - 1 in offsets then [] else [n - 1]
  }

  /** `remove(atOffsets:)`: the elements at the other positions, in order. */
  function RemoveAtOffsets<T>(s: seq<T>, offsets: set<int>): (r: seq<T>)
    ensures |r| == |KeptIndices(|s|, offsets)| <= |s|
    ensures forall j :: 0 <= j < |r| ==> r[j] == s[KeptIndices(|s|, offsets)[j]]
  {
    var kept := KeptIndices(|s|, offsets);
    seq(|kept|, j requires 0 <= j < |kept| => s[kept[j]])
  }

  /** Removing no offsets in range keeps the list, and removing every
      position empties it. */
  lemma {:induction false} RemoveAtOffsetsExtremes<T>(s: seq<T>, offsets: set<int>)
    ensures (forall i :: i in offsets ==> i < 0 || i >= |s|) ==> RemoveAtOffsets(s, offsets) == s
    ensures (forall i :: 0 <= i < |s| ==> i in offsets) ==> RemoveAtOffsets(s, offsets) == []
  {
    if forall i :: i in offsets ==> i < 0 || i >= |s| {
      KeepAllOffsets(s, offsets);
    }
    if forall i :: 0 <= i < |s| ==> i in offsets {
      KeptNone(|s|, offsets);
    }
  }

  lemma KeepAllOffsets<T>(s: seq<T>, offsets: set<int>)
    requires forall i :: i in offsets ==> i < 0 || i >= |s|
    ensures RemoveAtOffsets(s, offsets) == s
  {
    KeptAll(|s|, offsets);
    var r := RemoveAtOffsets(s, offsets);
    forall j | 0 <= j < |r|
      ensures r[j] == s[j]
    {
      assert KeptIndices(|s|, offsets)[j] == j;
    }
  }

  lemma {:induction false} KeptNone(n: nat, offsets: set<int>)
    requires forall i :: 0 <= i < n ==> i in offsets
    ensures KeptIndices(n, offsets) == []
  {
    if n > 0 {
      KeptNone(n - 1, offsets);
    }
  }

  lemma {:induction false} KeptAll(n: nat, offsets: set<int>)
    requires forall i :: i in offsets ==> i < 0 || i >= n
    ensures KeptIndices(n, offsets) == Range(0, n)
  {
    if n > 0 {
      KeptAll(n - 1, offsets);
      assert n - 1 !in offsets;
      RangeSnoc(0, n - 1);
    }
  }

  /** `ContentView`'s in-memory list and its text field. */
  class ContentView {
    var tasks: seq<Task>
    var fillerText: string

    constructor ()
      ensures tasks == [] && fillerText == ""
    {
      tasks := [];
      fillerText := "";
    }

    /** `addTask(text:)`: nothing when the field is empty; otherwise the new
        task is appended after the existing ones. The field is not cleared,
        the clearing line being commented out. */
    method AddTask(text: string, newId: nat)
      modifies this`tasks
      ensures old(fillerText) == "" ==> tasks == old(tasks)
      ensures old(fillerText) != "" ==> tasks == old(tasks) + [Task(newId, text, false, Inbox)]
      ensures fillerText == old(fillerText)
    {
      if fillerText == "" {
        return;
      }
      var newTask := Task(newId, text, false, Inbox);
      tasks := tasks + [newTask];
    }

    /** `deleteTasks(at:)`: `remove(atOffsets:)` on the array. */
    method DeleteTasks(offsets: set<int>)
      modifies this`tasks
      ensures tasks == RemoveAtOffsets(old(tasks), offsets)
    {
      tasks := RemoveAtOffsets(tasks, offsets);
    }
  }

  /** The tab bar: the selected tab. */
  class TabBar {
    var selectedTab: TaskGroup

    constructor (selectedTab: TaskGroup)
      ensures this.selectedTab == selectedTab
    {
      this.selectedTab := selectedTab;
    }

    /** Tapping a tab selects its group. */
    method TabTapped(group: TaskGroup)
      modifies this
      ensures selectedTab == group
    {
      selectedTab := group;
    }
  }
}
