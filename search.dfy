/** The search panel's scan: every task of every list, in list-then-task order,
    is reported when the query matches the list's name, the task's title or the
    task's content. The regular-expression test is the parameter `matches`. */
module Search {
  import opened Model
  import Js

  /** One entry of `searchList`: the position of the task, the task itself and
      the name of its list. */
  datatype Hit = Hit(itemIndex: nat, taskIndex: nat, task: Task, name: string)

  /** A task is reported when the list name, its title or its content matches. */
  predicate Fits(query: string, name: string, t: Task, matches: (string, string) -> bool)
  {
    matches(query, name) || matches(query, t.title) || matches(query, t.content)
  }

  /** The hits among the first `j` tasks of `item`, the list at position `i`. */
  function TaskHits(query: string, i: nat, item: ListItem, j: nat, matches: (string, string) -> bool): seq<Hit>
    requires j <= |item.taskList|
  {
    if j == 0 then []
    else
      TaskHits(query, i, item, j - 1, matches)
      + (if Fits(query, item.name, item.taskList[j - 1], matches)
         then [Hit(i, j - 1, item.taskList[j - 1], item.name)]
         else [])
  }

  /** The hits among the first `n` lists. */
  function ListHits(query: string, list: seq<ListItem>, n: nat, matches: (string, string) -> bool): seq<Hit>
    requires n <= |list|
  {
    if n == 0 then []
    else ListHits(query, list, n - 1, matches) + TaskHits(query, n - 1, list[n - 1], |list[n - 1].taskList|, matches)
  }

  /** What the scan produces: nothing for a blank query, otherwise every hit. */
  function SearchResult(query: string, list: seq<ListItem>, matches: (string, string) -> bool): (r: seq<Hit>)
    ensures Js.Blank(query) ==> r == []
  {
    if Js.Trim(query) == [] then [] else ListHits(query, list, |list|, matches)
  }

  /** The scan of a non-blank query: for each list, test its name once, then
      each task's title and content, and push an entry for every task where one
      of the three matches. */
  method Scan(query: string, list: seq<ListItem>, matches: (string, string) -> bool) returns (hits: seq<Hit>)
    ensures hits == ListHits(query, list, |list|, matches)
  {
    hits := [];
    var i := 0;
    while i < |list|
      invariant 0 <= i <= |list|
      invariant hits == ListHits(query, list, i, matches)
    {
      var item := list[i];
      var nameFit := matches(query, item.name);
      var j := 0;
      while j < |item.taskList|
        invariant 0 <= j <= |item.taskList|
        invariant hits == ListHits(query, list, i, matches) + TaskHits(query, i, item, j, matches)
      {
        var task := item.taskList[j];
        var titleFit := matches(query, task.title);
        var contentFit := matches(query, task.content);
        if nameFit || titleFit || contentFit {
          hits := hits + [Hit(i, j, task, item.name)];
        }
        j := j + 1;
      }
      i := i + 1;
    }
  }

  /** `h` carries the task at its own position of `list`, with that list's name. */
  predicate PointsInto(h: Hit, list: seq<ListItem>)
  {
    && h.itemIndex < |list|
    && h.taskIndex < |list[h.itemIndex].taskList|
    && h.task == list[h.itemIndex].taskList[h.taskIndex]
    && h.name == list[h.itemIndex].name
  }

  /** `a` comes strictly before `b` in list-then-task order. */
  predicate Before(a: Hit, b: Hit)
  {
    a.itemIndex < b.itemIndex || (a.itemIndex == b.itemIndex && a.taskIndex < b.taskIndex)
  }

  predicate Ordered(hits: seq<Hit>)
  {
    forall k1, k2 :: 0 <= k1 < k2 < |hits| ==> Before(hits[k1], hits[k2])
  }

  predicate Reports(hits: seq<Hit>, i: nat, j: nat)
  {
    exists k :: 0 <= k < |hits| && hits[k].itemIndex == i && hits[k].taskIndex == j
  }

  lemma {:induction false} TaskHitsSound(query: string, i: nat, item: ListItem, j: nat, matches: (string, string) -> bool)
    requires j <= |item.taskList|
    ensures forall k :: 0 <= k < |TaskHits(query, i, item, j, matches)| ==>
              var h := TaskHits(query, i, item, j, matches)[k];
              && h.itemIndex == i && h.taskIndex < j
              && h.task == item.taskList[h.taskIndex] && h.name == item.name
              && Fits(query, item.name, h.task, matches)
    ensures Ordered(TaskHits(query, i, item, j, matches))
  {
    if j > 0 {
      TaskHitsSound(query, i, item, j - 1, matches);
    }
  }

  lemma {:induction false} TaskHitsComplete(query: string, i: nat, item: ListItem, j: nat, matches: (string, string) -> bool)
    requires j <= |item.taskList|
    ensures forall t :: 0 <= t < j && Fits(query, item.name, item.taskList[t], matches) ==>
              Reports(TaskHits(query, i, item, j, matches), i, t)
  {
    if j > 0 {
      TaskHitsComplete(query, i, item, j - 1, matches);
      var prev := TaskHits(query, i, item, j - 1, matches);
      var all := TaskHits(query, i, item, j, matches);
      forall t | 0 <= t < j && Fits(query, item.name, item.taskList[t], matches)
        ensures Reports(all, i, t)
      {
        if t < j - 1 {
          var k :| 0 <= k < |prev| && prev[k].itemIndex == i && prev[k].taskIndex == t;
          assert all[k] == prev[k];
        } else {
          assert all[|prev|] == Hit(i, t, item.taskList[t], item.name);
        }
      }
    }
  }

  /** Every entry of the first `n` lists' hits points at the task it carries,
      the task fits, the entries are in list-then-task order, and no entry
      comes from a list at or after `n`. */
  lemma {:induction false} ListHitsSound(query: string, list: seq<ListItem>, n: nat, matches: (string, string) -> bool)
    requires n <= |list|
    ensures forall k :: 0 <= k < |ListHits(query, list, n, matches)| ==>
              var h := ListHits(query, list, n, matches)[k];
              && h.itemIndex < n
              && PointsInto(h, list)
              && Fits(query, h.name, h.task, matches)
    ensures Ordered(ListHits(query, list, n, matches))
  {
    if n > 0 {
      ListHitsSound(query, list, n - 1, matches);
      TaskHitsSound(query, n - 1, list[n - 1], |list[n - 1].taskList|, matches);
      var prev := ListHits(query, list, n - 1, matches);
      var last := TaskHits(query, n - 1, list[n - 1], |list[n - 1].taskList|, matches);
      var all := prev + last;
      forall k1, k2 | 0 <= k1 < k2 < |all| ensures Before(all[k1], all[k2]) {
        if k2 < |prev| {
          assert all[k1] == prev[k1] && all[k2] == prev[k2];
        } else if k1 < |prev| {
          assert all[k1] == prev[k1] && all[k2] == last[k2 - |prev|];
        } else {
          assert all[k1] == last[k1 - |prev|] && all[k2] == last[k2 - |prev|];
        }
      }
    }
  }

  /** Every fitting task of the first `n` lists is reported. */
  lemma {:induction false} ListHitsComplete(query: string, list: seq<ListItem>, n: nat, matches: (string, string) -> bool)
    requires n <= |list|
    ensures forall i, j :: 0 <= i < n && 0 <= j < |list[i].taskList| && Fits(query, list[i].name, list[i].taskList[j], matches) ==>
              Reports(ListHits(query, list, n, matches), i, j)
  {
    if n > 0 {
      ListHitsComplete(query, list, n - 1, matches);
      TaskHitsComplete(query, n - 1, list[n - 1], |list[n - 1].taskList|, matches);
      var prev := ListHits(query, list, n - 1, matches);
      var last := TaskHits(query, n - 1, list[n - 1], |list[n - 1].taskList|, matches);
      var all := prev + last;
      forall i, j | 0 <= i < n && 0 <= j < |list[i].taskList| && Fits(query, list[i].name, list[i].taskList[j], matches)
        ensures Reports(all, i, j)
      {
        if i < n - 1 {
          var k :| 0 <= k < |prev| && prev[k].itemIndex == i && prev[k].taskIndex == j;
          assert all[k] == prev[k];
        } else {
          var k :| 0 <= k < |last| && last[k].itemIndex == i && last[k].taskIndex == j;
          assert all[|prev| + k] == last[k];
        }
      }
    }
  }

  /** The search result for a non-blank query, as the scan promises it:
      every entry points at the task it carries and carries its list's name
      (so a list without tasks contributes nothing), every entry fits the
      query, the entries are in list-then-task order without repetition, and
      a task is reported exactly when its list's name, its title or its
      content matches. */
  lemma SearchResultCorrect(query: string, list: seq<ListItem>, matches: (string, string) -> bool)
    ensures Js.Blank(query) ==> SearchResult(query, list, matches) == []
    ensures forall k :: 0 <= k < |SearchResult(query, list, matches)| ==>
              var h := SearchResult(query, list, matches)[k];
              PointsInto(h, list) && Fits(query, h.name, h.task, matches)
    ensures Ordered(SearchResult(query, list, matches))
    ensures !Js.Blank(query) ==>
              forall i, j :: 0 <= i < |list| && 0 <= j < |list[i].taskList| ==>
                (Reports(SearchResult(query, list, matches), i, j) <==> Fits(query, list[i].name, list[i].taskList[j], matches))
  {
    var r := SearchResult(query, list, matches);
    if !Js.Blank(query) {
      ListHitsSound(query, list, |list|, matches);
      ListHitsComplete(query, list, |list|, matches);
      forall i, j | 0 <= i < |list| && 0 <= j < |list[i].taskList| && Reports(r, i, j)
        ensures Fits(query, list[i].name, list[i].taskList[j], matches)
      {
        var k :| 0 <= k < |r| && r[k].itemIndex == i && r[k].taskIndex == j;
        assert PointsInto(r[k], list);
      }
    }
  }

  /** A list with no tasks contributes no entry, even when its name matches. */
  lemma EmptyListContributesNothing(query: string, list: seq<ListItem>, matches: (string, string) -> bool, i: nat)
    requires i < |list| && list[i].taskList == []
    ensures forall k :: 0 <= k < |SearchResult(query, list, matches)| ==>
              SearchResult(query, list, matches)[k].itemIndex != i
  {
    SearchResultCorrect(query, list, matches);
  }
}
