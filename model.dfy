/** The document held by the store: an ordered sequence of named lists of
    tasks, plus the two selection indices, where -1 means "nothing selected". */
module Model {

  datatype Option<+T> = None | Some(value: T)

  /** The `STATUS` constants: UNCHECK is 0, CHECKED is 1. */
  datatype Status = Uncheck | Checked

  /** A todo item; `content` is rich text (HTML), `timestamp` the creation time
      in milliseconds. */
  datatype Task = Task(title: string, content: string, status: Status, timestamp: int)

  /** A named group of tasks. */
  datatype ListItem = ListItem(name: string, taskList: seq<Task>)

  /** The whole store state, exactly what `JSON.stringify(store.state)` serialises:
      the lists and both selection indices. */
  datatype StoreState = StoreState(list: seq<ListItem>, listIndex: int, taskIndex: int)
  {
    /** Every selection index is -1 or points into its sequence, and a task is
        only selected inside a selected list. */
    predicate SelectionValid()
    {
      && (listIndex == -1 || 0 <= listIndex < |list|)
      && (taskIndex == -1 || (0 <= listIndex < |list| && 0 <= taskIndex < |list[listIndex].taskList|))
    }
  }

  /** `list` with the task at (`li`, `ti`) replaced by `t`: the common shape of
      the single-field setters, which change one task and nothing else. */
  function WithTask(list: seq<ListItem>, li: int, ti: int, t: Task): (r: seq<ListItem>)
    requires 0 <= li < |list| && 0 <= ti < |list[li].taskList|
    ensures |r| == |list|
    ensures forall i :: 0 <= i < |list| && i != li ==> r[i] == list[i]
    ensures r[li].name == list[li].name
    ensures |r[li].taskList| == |list[li].taskList|
    ensures forall j :: 0 <= j < |list[li].taskList| && j != ti ==> r[li].taskList[j] == list[li].taskList[j]
    ensures r[li].taskList[ti] == t
  {
    list[li := list[li].(taskList := list[li].taskList[ti := t])]
  }

  /** The name every new list gets. */
  const UntitledList: string := "Untitled list"

  /** The state `newFile` installs. */
  const EmptyState: StoreState := StoreState([], -1, -1)

  /** The list index the `removeListItem` action selects after removing the list
      at `index` from `listCount` lists while `listIndex` was selected:
      a selection after the removed list moves down by one, a removed selection
      moves to the preceding list, or to the new first list when the first one
      was removed and others remain. */
  function NewListIndex(listIndex: int, index: int, listCount: int): (r: int)
    // lists before the removed one keep their index; lists after it shift down
    ensures listIndex < index ==> r == listIndex
    ensures listIndex > index ==> r == listIndex - 1
    // for an in-range removal from a valid selection the result is again valid
    // for the shorter sequence, and -1 exactly when nothing was selected or
    // no list remains
    ensures 0 <= index < listCount && (listIndex == -1 || 0 <= listIndex < listCount) ==>
              && -1 <= r < listCount - 1
              && (r == -1 <==> (listIndex == -1 || listCount == 1))
    // a removed selection falls back to the preceding list, or to the list
    // that followed it when it was the first one
    ensures listIndex == index && index != 0 ==> r == index - 1
    ensures listIndex == index == 0 ==> r == (if listCount > 1 then 0 else -1)
  {
    var n := if listIndex > index then listIndex - 1 else listIndex;
    if listIndex == index then
      var m := n - 1;
      if m == -1 && listCount > 1 then m + 1 else m
    else
      n
  }
}
