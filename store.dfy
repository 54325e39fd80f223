/** The Vuex store: its state, its getters (total lookups that fall back to
    "undefined" or an empty task list), its mutations (which change the lists in
    place) and its actions (which commit mutations and keep the two selection
    indices up to date). A pass-through action that only commits the mutation of
    the same meaning (`setListItemName`, `setTaskName`, `setTaskContent`,
    `setTaskStatus`, `setTaskIndex`) is modelled once, by one method. */
module TodoStore {
  import opened Model
  import Js

  class Store {
    var list: seq<ListItem>
    var listIndex: int
    var taskIndex: int

    /** The initial state: no lists, nothing selected. */
    constructor ()
      ensures State() == EmptyState
    {
      list, listIndex, taskIndex := [], -1, -1;
    }

    /** The state as a value, as `JSON.stringify(store.state)` sees it: the
        lists and both selection indices, so a change of any of the three
        changes the serialised state. */
    function State(): (r: StoreState)
      reads this
      ensures r.list == list && r.listIndex == listIndex && r.taskIndex == taskIndex
    {
      StoreState(list, listIndex, taskIndex)
    }

    // ----- getters -----

    /** The number of lists; under the selection invariant a selected list
        lies below it, and without lists nothing is selected. */
    function ListCount(): (r: nat)
      reads this
      ensures r == |list|
      ensures State().SelectionValid() && listIndex != -1 ==> listIndex < r
      ensures State().SelectionValid() && r == 0 ==> listIndex == -1 && taskIndex == -1
    {
      |list|
    }

    /** `list[listIndex]`, undefined (None) when the index is out of range;
        under the selection invariant it is defined exactly when a list is
        selected. */
    function SelectedListItem(): (r: Option<ListItem>)
      reads this
      ensures r.Some? <==> 0 <= listIndex < |list|
      ensures r.Some? ==> r.value == list[listIndex]
      ensures State().SelectionValid() ==> (r.Some? <==> listIndex != -1)
    {
      if 0 <= listIndex < |list| then Some(list[listIndex]) else None
    }

    /** The name of the selected list, undefined when none is selected. */
    function Name(): (r: Option<string>)
      reads this
      ensures r.Some? <==> 0 <= listIndex < |list|
      ensures State().SelectionValid() ==> (r.Some? <==> listIndex != -1)
      ensures r.Some? ==> r.value == list[listIndex].name
    {
      match SelectedListItem()
      case Some(item) => Some(item.name)
      case None => None
    }

    /** The tasks of the selected list, the empty list when none is selected;
        under the selection invariant a selected task lies inside it. */
    function SelectedTaskList(): (r: seq<Task>)
      reads this
      ensures State().SelectionValid() && taskIndex != -1 ==> 0 <= taskIndex < |r|
      ensures 0 <= listIndex < |list| ==> r == list[listIndex].taskList
      ensures !(0 <= listIndex < |list|) ==> r == []
    {
      match SelectedListItem()
      case Some(item) => item.taskList
      case None => []
    }

    /** The number of tasks of the selected list; 0 when no list is selected. */
    function TaskCount(): (r: nat)
      reads this
      ensures !(0 <= listIndex < |list|) ==> r == 0
      ensures 0 <= listIndex < |list| ==> r == |list[listIndex].taskList|
      ensures State().SelectionValid() && taskIndex != -1 ==> taskIndex < r
    {
      |SelectedTaskList()|
    }

    /** The selected task: defined exactly when both indices point at a task. */
    function SelectedTask(): (r: Option<Task>)
      reads this
      ensures r.Some? <==> 0 <= listIndex < |list| && 0 <= taskIndex < |list[listIndex].taskList|
      ensures r.Some? ==> r.value == list[listIndex].taskList[taskIndex]
      ensures State().SelectionValid() ==> (r.Some? <==> taskIndex != -1)
    {
      var tasks := SelectedTaskList();
      if 0 <= taskIndex < |tasks| then Some(tasks[taskIndex]) else None
    }

    /** The title of the selected task, undefined when none is selected. */
    function Title(): (r: Option<string>)
      reads this
      ensures State().SelectionValid() ==> (r.Some? <==> taskIndex != -1)
      ensures r.Some? ==>
                && 0 <= listIndex < |list| && 0 <= taskIndex < |list[listIndex].taskList|
                && r.value == list[listIndex].taskList[taskIndex].title
    {
      match SelectedTask()
      case Some(t) => Some(t.title)
      case None => None
    }

    /** The content of the selected task, undefined when none is selected. */
    function Content(): (r: Option<string>)
      reads this
      ensures State().SelectionValid() ==> (r.Some? <==> taskIndex != -1)
      ensures r.Some? ==>
                && 0 <= listIndex < |list| && 0 <= taskIndex < |list[listIndex].taskList|
                && r.value == list[listIndex].taskList[taskIndex].content
    {
      match SelectedTask()
      case Some(t) => Some(t.content)
      case None => None
    }

    /** The status of the selected task, undefined when none is selected. */
    function TaskStatus(): (r: Option<Status>)
      reads this
      ensures State().SelectionValid() ==> (r.Some? <==> taskIndex != -1)
      ensures r.Some? ==>
                && 0 <= listIndex < |list| && 0 <= taskIndex < |list[listIndex].taskList|
                && r.value == list[listIndex].taskList[taskIndex].status
    {
      match SelectedTask()
      case Some(t) => Some(t.status)
      case None => None
    }

    /** The creation time of the selected task, undefined when none is
        selected. */
    function Timestamp(): (r: Option<int>)
      reads this
      ensures State().SelectionValid() ==> (r.Some? <==> taskIndex != -1)
      ensures r.Some? ==>
                && 0 <= listIndex < |list| && 0 <= taskIndex < |list[listIndex].taskList|
                && r.value == list[listIndex].taskList[taskIndex].timestamp
    {
      match SelectedTask()
      case Some(t) => Some(t.timestamp)
      case None => None
    }

    // ----- mutations and actions -----

    /** `store.replaceState(s)`. */
    method ReplaceState(s: StoreState)
      modifies this
      ensures State() == s
    {
      list, listIndex, taskIndex := s.list, s.listIndex, s.taskIndex;
    }

    /** The `setTaskIndex` action (a pass-through to its mutation). */
    method SetTaskIndex(index: int)
      modifies this
      ensures list == old(list) && listIndex == old(listIndex)
      ensures taskIndex == index
    {
      taskIndex := index;
    }

    /** The `resetTaskIndex` action: deselect the task. */
    method ResetTaskIndex()
      modifies this
      ensures list == old(list) && listIndex == old(listIndex)
      ensures taskIndex == -1
      ensures old(State().SelectionValid()) ==> State().SelectionValid()
    {
      SetTaskIndex(-1);
    }

    /** The `setListIndex` action: select a list and deselect the task. */
    method SetListIndex(index: int)
      modifies this
      ensures list == old(list)
      ensures listIndex == index && taskIndex == -1
      ensures (index == -1 || 0 <= index < |list|) ==> State().SelectionValid()
    {
      listIndex := index;
      ResetTaskIndex();
    }

    /** The `addListItem` mutation: push a new empty list. */
    method CommitAddListItem()
      modifies this
      ensures list == old(list) + [ListItem(UntitledList, [])]
      ensures listIndex == old(listIndex) && taskIndex == old(taskIndex)
    {
      var item := ListItem(UntitledList, []);
      list := list + [item];
    }

    /** The `addListItem` action: append an empty list named "Untitled list",
        leaving the earlier lists untouched, and select it. */
    method AddListItem()
      modifies this
      ensures list == old(list) + [ListItem(UntitledList, [])]
      ensures listIndex == |list| - 1 && taskIndex == -1
      ensures State().SelectionValid()
      // the getters now see the new, empty list
      ensures Name() == Some(UntitledList) && TaskCount() == 0 && SelectedTask() == None
    {
      CommitAddListItem();
      SetListIndex(ListCount() - 1);
    }

    /** The `removeListItem` mutation: `list.splice(index, 1)`. */
    method CommitRemoveListItem(index: int)
      modifies this
      ensures list == Js.Splice(old(list), index)
      ensures listIndex == old(listIndex) && taskIndex == old(taskIndex)
    {
      list := Js.Splice(list, index);
    }

    /** The `removeListItem` action: remove the list at `index` and select the
        list given by NewListIndex, which for an in-range index keeps the same
        list selected when another one is removed. */
    method RemoveListItem(index: int)
      modifies this
      ensures list == Js.Splice(old(list), index)
      ensures listIndex == NewListIndex(old(listIndex), index, |old(list)|)
      ensures taskIndex == -1
      // an in-range index removes exactly that list and keeps the rest in order
      ensures 0 <= index < |old(list)| ==> list == old(list)[..index] + old(list)[index + 1..]
      // a valid selection stays valid; it is -1 exactly when nothing was
      // selected or no list is left
      ensures 0 <= index < |old(list)| && (old(listIndex) == -1 || 0 <= old(listIndex) < |old(list)|) ==>
                && State().SelectionValid()
                && (listIndex == -1 <==> (old(listIndex) == -1 || list == []))
      // removing another list keeps the same list selected
      ensures 0 <= index < |old(list)| && 0 <= old(listIndex) < |old(list)| && old(listIndex) != index ==>
                list[listIndex] == old(list)[old(listIndex)]
      // removing the selected list selects its predecessor, or its successor
      // when it was the first
      ensures 0 <= index < |old(list)| && old(listIndex) == index && list != [] ==>
                list[listIndex] == old(list)[if index > 0 then index - 1 else 1]
    {
      ghost var before := list;
      var selected := listIndex;
      var listCount := ListCount();
      var newListIndex := selected;
      if selected > index {
        newListIndex := newListIndex - 1;
      }
      if selected == index {
        newListIndex := newListIndex - 1;
        if newListIndex == -1 && listCount > 1 {
          newListIndex := newListIndex + 1;
        }
      }
      assert newListIndex == NewListIndex(selected, index, listCount);
      CommitRemoveListItem(index);
      SetListIndex(newListIndex);
      if 0 <= index < listCount {
        RemovalKeepsSelection(before, index, selected);
      }
    }

    /** `setListItemName`: rename the selected list; nothing else changes. */
    method SetListItemName(name: string)
      requires 0 <= listIndex < |list|
      modifies this
      ensures list == old(list)[old(listIndex) := old(list)[old(listIndex)].(name := name)]
      ensures listIndex == old(listIndex) && taskIndex == old(taskIndex)
      ensures old(State().SelectionValid()) ==> State().SelectionValid()
      ensures Name() == Some(name) && SelectedTaskList() == old(SelectedTaskList())
    {
      var item := list[listIndex];
      item := item.(name := name);
      list := list[listIndex := item];
    }

    /** The `addTask` mutation: `list.splice(li, 1, item')` where `item'` is the
        list at `li` with `task` appended. */
    method CommitAddTask(li: int, task: Task)
      requires 0 <= li < |list|
      modifies this
      ensures list == old(list)[li := old(list)[li].(taskList := old(list)[li].taskList + [task])]
      ensures listIndex == old(listIndex) && taskIndex == old(taskIndex)
    {
      var item := list[li];
      var updated := ListItem(item.name, item.taskList + [task]);
      list := list[li := updated];
    }

    /** The `addTask` action: create and select a list when there is none, then
        append `task` to the selected list and deselect the task. */
    method AddTask(task: Task)
      requires list == [] || 0 <= listIndex < |list|
      modifies this
      ensures old(list) == [] ==> list == [ListItem(UntitledList, [task])] && listIndex == 0
      ensures old(list) != [] ==>
                && listIndex == old(listIndex)
                && list == old(list)[listIndex := old(list)[listIndex].(taskList := old(list)[listIndex].taskList + [task])]
      ensures taskIndex == -1
      ensures State().SelectionValid()
      ensures |list[listIndex].taskList| > 0 && list[listIndex].taskList[|list[listIndex].taskList| - 1] == task
      ensures TaskCount() == (if old(list) == [] then 1 else old(TaskCount()) + 1)
    {
      if ListCount() == 0 {
        AddListItem();
      }
      var li := listIndex;
      assert old(list) == [] ==> list[li].taskList + [task] == [task];
      CommitAddTask(li, task);
      ResetTaskIndex();
    }

    /** The `removeTask` action: `taskList.splice(ti, 1)` on the list at `li`;
        the other lists and the list selection are unchanged. */
    method RemoveTask(li: int, ti: int)
      requires 0 <= li < |list|
      modifies this
      ensures list == old(list)[li := old(list)[li].(taskList := Js.Splice(old(list)[li].taskList, ti))]
      ensures listIndex == old(listIndex) && taskIndex == -1
      ensures 0 <= ti < |old(list)[li].taskList| ==>
                list[li].taskList == old(list)[li].taskList[..ti] + old(list)[li].taskList[ti + 1..]
      ensures old(State().SelectionValid()) ==> State().SelectionValid()
      ensures li == listIndex && 0 <= ti < |old(list)[li].taskList| ==> TaskCount() == old(TaskCount()) - 1
    {
      var item := list[li];
      var tasks := Js.Splice(item.taskList, ti);
      item := item.(taskList := tasks);
      list := list[li := item];
      ResetTaskIndex();
    }

    /** `setTaskTitle` (the `setTaskName` action): retitle the selected task. */
    method SetTaskTitle(title: string)
      requires 0 <= listIndex < |list| && 0 <= taskIndex < |list[listIndex].taskList|
      modifies this
      ensures list == WithTask(old(list), old(listIndex), old(taskIndex), old(list)[old(listIndex)].taskList[old(taskIndex)].(title := title))
      ensures listIndex == old(listIndex) && taskIndex == old(taskIndex)
      ensures old(State().SelectionValid()) ==> State().SelectionValid()
      ensures Title() == Some(title) && Content() == old(Content()) && TaskStatus() == old(TaskStatus())
    {
      var tasks := list[listIndex].taskList;
      tasks := tasks[taskIndex := tasks[taskIndex].(title := title)];
      list := list[listIndex := list[listIndex].(taskList := tasks)];
    }

    /** `setTaskContent`: replace the content of the selected task (the source
        clears it first and then assigns it; only the final value is visible). */
    method SetTaskContent(content: string)
      requires 0 <= listIndex < |list| && 0 <= taskIndex < |list[listIndex].taskList|
      modifies this
      ensures list == WithTask(old(list), old(listIndex), old(taskIndex), old(list)[old(listIndex)].taskList[old(taskIndex)].(content := content))
      ensures listIndex == old(listIndex) && taskIndex == old(taskIndex)
      ensures old(State().SelectionValid()) ==> State().SelectionValid()
      ensures Content() == Some(content) && Title() == old(Title()) && TaskStatus() == old(TaskStatus())
    {
      var tasks := list[listIndex].taskList;
      tasks := tasks[taskIndex := tasks[taskIndex].(content := "")];
      tasks := tasks[taskIndex := tasks[taskIndex].(content := content)];
      assert tasks == old(list)[listIndex].taskList[taskIndex := old(list)[listIndex].taskList[taskIndex].(content := content)];
      list := list[listIndex := list[listIndex].(taskList := tasks)];
    }

    /** `setTaskStatus`: set the status of the task at `index` of the selected
        list, whichever task is selected. */
    method SetTaskStatus(index: int, status: Status)
      requires 0 <= listIndex < |list| && 0 <= index < |list[listIndex].taskList|
      modifies this
      ensures list == WithTask(old(list), old(listIndex), index, old(list)[old(listIndex)].taskList[index].(status := status))
      ensures listIndex == old(listIndex) && taskIndex == old(taskIndex)
      ensures old(State().SelectionValid()) ==> State().SelectionValid()
      ensures index == taskIndex ==> TaskStatus() == Some(status)
      ensures Title() == old(Title()) && Content() == old(Content())
    {
      var tasks := list[listIndex].taskList;
      tasks := tasks[index := tasks[index].(status := status)];
      list := list[listIndex := list[listIndex].(taskList := tasks)];
    }
  }

  /** Removing the list at an in-range `index` with `Js.Splice` and moving the
      selection with NewListIndex keeps the selection meaningful: a valid
      selection stays valid, another selected list stays selected, and a
      removed selection moves to its predecessor, or to its successor when it
      was the first. */
  lemma RemovalKeepsSelection(lists: seq<ListItem>, index: int, selected: int)
    requires 0 <= index < |lists|
    ensures Js.Splice(lists, index) == lists[..index] + lists[index + 1..]
    ensures selected == -1 || 0 <= selected < |lists| ==>
              var r := NewListIndex(selected, index, |lists|);
              && (r == -1 || 0 <= r < |Js.Splice(lists, index)|)
              && (r == -1 <==> (selected == -1 || Js.Splice(lists, index) == []))
    ensures 0 <= selected < |lists| && selected != index ==>
              Js.Splice(lists, index)[NewListIndex(selected, index, |lists|)] == lists[selected]
    ensures selected == index && |lists| > 1 ==>
              Js.Splice(lists, index)[NewListIndex(selected, index, |lists|)] == lists[if index > 0 then index - 1 else 1]
  {
    var rest := Js.Splice(lists, index);
    assert |rest| == |lists| - 1;
  }
}
