/** The decisions that archive Notion pages whose Google Tasks counterpart
    is gone (src/helpers/taskHelpers.ts). The Notion and Google Tasks
    fetches shouldDeleteTaskPage awaits are parameters. */
module TaskHelpers {
  import opened Model

  /** `xs.filter(x => x.id === id).length` */
  function CountWithId<F>(xs: seq<Entity<F>>, id: Id): (n: nat)
    ensures n <= |xs|
    ensures n == 0 <==> forall i :: 0 <= i < |xs| ==> xs[i].id != id
  {
    if xs == [] then 0
    else
      var n := CountWithId(xs[..|xs| - 1], id);
      assert forall i :: 0 <= i < |xs| - 1 ==> xs[..|xs| - 1][i] == xs[i];
      n + (if xs[|xs| - 1].id == id then 1 else 0)
  }

  // =====================================================================
  // shouldDeleteListPage

  /** shouldDeleteListPage: archive a list page when no Google task list
      carries the id its GTaskID names. */
  function ShouldDeleteListPage(taskList: Page, taskListArray: seq<TaskList>): (r: bool)
    requires HasTitle(taskList, "Name") && HasText(taskList, "GTaskID")
    ensures r <==> forall i :: 0 <= i < |taskListArray| ==> taskListArray[i].id != GTaskIdOf(taskList)
  {
    var listId := GTaskIdOf(taskList);
    var foundList := CountWithId(taskListArray, listId);
    if foundList > 0 then false else true
  }

  /** The ids a list array holds. */
  function ListIds(lists: seq<TaskList>): set<Id>
  {
    set i | 0 <= i < |lists| :: lists[i].id
  }

  /** The decision reads the page's GTaskID and the array's ids only: the
      page's Name, the lists' other fields and their order do not matter. */
  lemma {:induction false} ShouldDeleteListPageDependsOnIds(page1: Page, page2: Page, lists1: seq<TaskList>, lists2: seq<TaskList>)
    requires HasTitle(page1, "Name") && HasText(page1, "GTaskID")
    requires HasTitle(page2, "Name") && HasText(page2, "GTaskID")
    requires GTaskIdOf(page1) == GTaskIdOf(page2) && ListIds(lists1) == ListIds(lists2)
    ensures ShouldDeleteListPage(page1, lists1) == ShouldDeleteListPage(page2, lists2)
  {
    var id := GTaskIdOf(page1);
    if !ShouldDeleteListPage(page1, lists1) {
      var i :| 0 <= i < |lists1| && lists1[i].id == id;
      assert id in ListIds(lists1);
      var j :| 0 <= j < |lists2| && lists2[j].id == id;
    }
    if !ShouldDeleteListPage(page2, lists2) {
      var i :| 0 <= i < |lists2| && lists2[i].id == id;
      assert id in ListIds(lists2);
      var j :| 0 <= j < |lists1| && lists1[j].id == id;
    }
  }

  // =====================================================================
  // taskPageFilter

  /** taskPageFilter, given the predicate's result for each page:
      `array.filter((_, index) => results[index])`. */
  function TaskPageFilter(pages: seq<Page>, results: seq<bool>): (kept: seq<Page>)
    requires |results| == |pages|
    ensures |kept| <= |pages|
    ensures forall p :: p in kept ==> p in pages
  {
    if pages == [] then []
    else
      var n := |pages| - 1;
      TaskPageFilter(pages[..n], results[..n]) + (if results[n] then [pages[n]] else [])
  }

  /** Filtering two runs of pages filters each in turn: a page is kept
      exactly when its own result is true, in input order. */
  lemma {:induction false} TaskPageFilterConcat(a: seq<Page>, ra: seq<bool>, b: seq<Page>, rb: seq<bool>)
    requires |ra| == |a| && |rb| == |b|
    ensures TaskPageFilter(a + b, ra + rb) == TaskPageFilter(a, ra) + TaskPageFilter(b, rb)
  {
    if b == [] {
      assert a + b == a && ra + rb == ra;
    } else {
      var n := |b| - 1;
      assert (a + b)[..|a + b| - 1] == a + b[..n];
      assert (ra + rb)[..|ra + rb| - 1] == ra + rb[..n];
      TaskPageFilterConcat(a, ra, b[..n], rb[..n]);
    }
  }

  /** The page at index i is kept exactly when results[i] holds. */
  lemma {:induction false} TaskPageFilterKeeps(pages: seq<Page>, results: seq<bool>, i: nat)
    requires |results| == |pages| && i < |pages|
    ensures TaskPageFilter(pages, results)
            == TaskPageFilter(pages[..i], results[..i])
               + (if results[i] then [pages[i]] else [])
               + TaskPageFilter(pages[i + 1..], results[i + 1..])
  {
    var pre, rpre := pages[..i], results[..i];
    var post, rpost := pages[i + 1..], results[i + 1..];
    var one, rone := [pages[i]], [results[i]];
    assert pages == pre + (one + post);
    assert results == rpre + (rone + rpost);
    TaskPageFilterConcat(pre, rpre, one + post, rone + rpost);
    TaskPageFilterConcat(one, rone, post, rpost);
    assert TaskPageFilter(one, rone) == (if results[i] then [pages[i]] else []) by {
      assert one[..0] == [] && rone[..0] == [];
    }
    calc {
      TaskPageFilter(pages, results);
      TaskPageFilter(pre, rpre) + TaskPageFilter(one + post, rone + rpost);
      TaskPageFilter(pre, rpre) + (TaskPageFilter(one, rone) + TaskPageFilter(post, rpost));
      TaskPageFilter(pre, rpre) + TaskPageFilter(one, rone) + TaskPageFilter(post, rpost);
    }
  }

  /** All-true results keep the input; all-false results keep nothing. */
  lemma {:induction false} TaskPageFilterExtremes(pages: seq<Page>, results: seq<bool>)
    requires |results| == |pages|
    ensures (forall i :: 0 <= i < |results| ==> results[i]) ==> TaskPageFilter(pages, results) == pages
    ensures (forall i :: 0 <= i < |results| ==> !results[i]) ==> TaskPageFilter(pages, results) == []
  {
    if pages != [] {
      var n := |pages| - 1;
      TaskPageFilterExtremes(pages[..n], results[..n]);
      assert forall i :: 0 <= i < n ==> results[..n][i] == results[i];
      assert pages == pages[..n] + [pages[n]];
    }
  }

  // =====================================================================
  // shouldDeleteTaskPage

  /** The decision of shouldDeleteTaskPage. getNotionPage, getTaskListById
      and getTasksFromList stand for the fetches it awaits; None is a fetch
      that found nothing. */
  function ShouldDeleteTaskPage(taskPage: Page,
                                getNotionPage: Id -> Option<Page>,
                                getTaskListById: Id -> Option<TaskList>,
                                getTasksFromList: TaskList -> Option<seq<Task>>): (r: bool)
    requires HasTitle(taskPage, "Name") && HasText(taskPage, "GTaskID") && HasRelation(taskPage, "Project")
    requires getNotionPage(ProjectPageIdOf(taskPage)).Some? ==>
               HasText(getNotionPage(ProjectPageIdOf(taskPage)).value, "GTaskID")
    ensures var projectPage := getNotionPage(ProjectPageIdOf(taskPage));
            !r <==>
              projectPage.Some?
              && var list := getTaskListById(GTaskIdOf(projectPage.value));
                 list.Some?
                 && var tasks := getTasksFromList(list.value);
                    tasks.Some? && exists i :: 0 <= i < |tasks.value| && tasks.value[i].id == GTaskIdOf(taskPage)
  {
    var taskId := GTaskIdOf(taskPage);
    var projectPage := getNotionPage(ProjectPageIdOf(taskPage));
    if projectPage.Some? then
      var list := getTaskListById(GTaskIdOf(projectPage.value));
      if list.Some? then
        var tasks := getTasksFromList(list.value);
        if tasks.Some? then
          CountWithId(tasks.value, taskId) == 0
        else true
      else true
    else true
  }

  /** A fetched task array is truthy even when empty, yet the page is still
      archived since the filter finds nothing. */
  lemma {:induction false} EmptyTaskListDeletes(taskPage: Page, projectPage: Page, list: TaskList)
    requires HasTitle(taskPage, "Name") && HasText(taskPage, "GTaskID") && HasRelation(taskPage, "Project")
    requires HasText(projectPage, "GTaskID")
    ensures ShouldDeleteTaskPage(taskPage, _ => Some(projectPage), _ => Some(list), _ => Some([]))
  {
  }

  /** A page whose task is still in the fetched list is kept, whatever else
      the list holds; one whose task is gone is archived. */
  lemma {:induction false} TaskStillPresentKeepsPage(taskPage: Page, projectPage: Page, list: TaskList, tasks: seq<Task>, task: Task)
    requires HasTitle(taskPage, "Name") && HasText(taskPage, "GTaskID") && HasRelation(taskPage, "Project")
    requires HasText(projectPage, "GTaskID")
    ensures task in tasks && task.id == GTaskIdOf(taskPage) ==>
              !ShouldDeleteTaskPage(taskPage, _ => Some(projectPage), _ => Some(list), _ => Some(tasks))
    ensures ShouldDeleteTaskPage(taskPage, _ => Some(projectPage), _ => Some(list), _ => Some(tasks + [task]))
            <==> ShouldDeleteTaskPage(taskPage, _ => Some(projectPage), _ => Some(list), _ => Some(tasks))
                 && task.id != GTaskIdOf(taskPage)
  {
    var ts := tasks + [task];
    assert forall i :: 0 <= i < |tasks| ==> ts[i] == tasks[i];
    assert ts[|tasks|] == task;
  }
}
