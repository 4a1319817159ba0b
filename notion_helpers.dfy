/** Conversions between Google Tasks entities and Notion pages, and the
    assembly of the Notion side's data and sync state
    (src/helpers/notionHelpers.ts). */
module NotionHelpers {
  import opened Model

  // =====================================================================
  // Page shapes

  /** The properties parseNotionPageToList reads. */
  predicate IsListPage(page: Page)
  {
    HasTitle(page, "Name") && HasText(page, "GTaskID") && HasUrl(page, "List URL")
  }

  /** The properties parseNotionPageToTask reads. */
  predicate IsTaskPage(page: Page)
  {
    HasTitle(page, "Name") && HasText(page, "GTaskID") && HasDate(page, "Due") && HasDate(page, "Completed")
    && HasCheckbox(page, "Done") && HasUrl(page, "Task URL") && HasRelation(page, "Project")
  }

  /** A single text item holding content. */
  function TextOf(content: string): seq<RichText>
  {
    [RichText(content)]
  }

  /** `x ? {start: x} : null` */
  function DateOf(x: Option<string>): (date: Option<string>)
    ensures date.None? <==> !Truthy(x)
    ensures date.Some? ==> x == date
  {
    if Truthy(x) then x else None
  }

  // =====================================================================
  // Entity to page

  /** parseListToNotionPage */
  function ParseListToNotionPage(list: TaskList): (page: Page)
    ensures IsListPage(page)
    ensures NameOf(page) == list.fields.title && GTaskIdOf(page) == list.id
    ensures page.properties["List URL"].url == list.fields.selfLink.GetOr("")
  {
    Page(None, map[
      "Name" := TitleProp(TextOf(list.fields.title)),
      "List URL" := UrlProp(list.fields.selfLink.GetOr("")),
      "GTaskID" := TextProp(TextOf(list.id))])
  }

  /** parseTaskToNotionPage */
  function ParseTaskToNotionPage(task: Task, notionListPageId: Id): (page: Page)
    ensures IsTaskPage(page)
    ensures NameOf(page) == task.fields.title && GTaskIdOf(page) == task.id
    ensures page.properties["Done"].checkbox <==> task.fields.status == "completed"
    ensures page.properties["Due"].date.None? <==> !Truthy(task.fields.due)
    ensures page.properties["Due"].date.Some? ==> page.properties["Due"].date == task.fields.due
    ensures page.properties["Completed"].date.None? <==> !Truthy(task.fields.completed)
    ensures page.properties["Completed"].date.Some? ==> page.properties["Completed"].date == task.fields.completed
    ensures page.properties["Task URL"].url == task.fields.selfLink.GetOr("")
    ensures page.properties["Project"].relation == [notionListPageId]
  {
    Page(None, map[
      "Name" := TitleProp(TextOf(task.fields.title)),
      "Due" := DateProp(DateOf(task.fields.due)),
      "Completed" := DateProp(DateOf(task.fields.completed)),
      "Done" := CheckboxProp(task.fields.status == "completed"),
      "Task URL" := UrlProp(task.fields.selfLink.GetOr("")),
      "Project" := RelationProp([notionListPageId]),
      "GTaskID" := TextProp(TextOf(task.id))])
  }

  // =====================================================================
  // Page to entity

  /** parseNotionPageToList; `ref` is the object the literal allocates. */
  function ParseNotionPageToList(page: Page, ref: ObjRef): (list: TaskList)
    requires IsListPage(page)
    ensures list.ref == ref
    ensures list.id == GTaskIdOf(page) && list.fields.title == NameOf(page)
    ensures list.fields.selfLink == Some(page.properties["List URL"].url)
  {
    Entity(ref, GTaskIdOf(page), ListFields(NameOf(page), Some(page.properties["List URL"].url)))
  }

  /** `projectsData.find(data => data.pageId === pageId)` */
  function FindProject(projects: seq<ProjectData>, pageId: Id): (found: Option<ProjectData>)
    ensures found.Some? <==> exists k :: 0 <= k < |projects| && projects[k].pageId == pageId
    ensures found.Some? ==> exists k :: 0 <= k < |projects| && projects[k] == found.value
                              && projects[k].pageId == pageId
                              && forall j :: 0 <= j < k ==> projects[j].pageId != pageId
  {
    if projects == [] then None
    else if projects[0].pageId == pageId then Some(projects[0])
    else
      var r := FindProject(projects[1..], pageId);
      assert r.Some? ==> exists k :: 0 <= k < |projects| && projects[k] == r.value
                                     && projects[k].pageId == pageId
                                     && forall j :: 0 <= j < k ==> projects[j].pageId != pageId by {
        if r.Some? {
          var k :| 0 <= k < |projects[1..]| && projects[1..][k] == r.value && projects[1..][k].pageId == pageId
                   && forall j :: 0 <= j < k ==> projects[1..][j].pageId != pageId;
          assert projects[k + 1] == r.value;
          forall j | 0 <= j < k + 1 ensures projects[j].pageId != pageId {
            if j > 0 { assert projects[j] == projects[1..][j - 1]; }
          }
        }
      }
      assert (exists k :: 0 <= k < |projects| && projects[k].pageId == pageId) ==> r.Some? by {
        if exists k :: 0 <= k < |projects| && projects[k].pageId == pageId {
          var k :| 0 <= k < |projects| && projects[k].pageId == pageId;
          assert projects[1..][k - 1].pageId == pageId;
        }
      }
      r
  }

  /** parseNotionPageToTask: the task a page describes, owned by the list of
      the first registered project its Project relation points to; no such
      project is the one error. `ref` is the object the literal allocates. */
  function ParseNotionPageToTask(page: Page, projectsData: seq<ProjectData>, ref: ObjRef): (r: Result<Task>)
    requires IsTaskPage(page)
    ensures r.Ok? <==> exists k :: 0 <= k < |projectsData| && projectsData[k].pageId == ProjectPageIdOf(page)
    ensures r.Err? ==> r.error == UnknownProject
    ensures r.Ok? ==> r.value.ref == ref && r.value.id == GTaskIdOf(page) && r.value.fields.title == NameOf(page)
    ensures r.Ok? ==> (r.value.fields.status == "completed" <==> page.properties["Done"].checkbox)
    ensures r.Ok? ==> (r.value.fields.status == "completed" || r.value.fields.status == "needsAction")
    ensures r.Ok? ==> r.value.fields.due == page.properties["Due"].date
                      && r.value.fields.completed == page.properties["Completed"].date
    ensures r.Ok? ==> r.value.fields.selfLink == Some(page.properties["Task URL"].url)
    ensures r.Ok? ==> r.value.fields.parent.None? && r.value.fields.deleted.None?
    ensures r.Ok? ==> exists k :: 0 <= k < |projectsData| && projectsData[k].pageId == ProjectPageIdOf(page)
                        && r.value.fields.taskListId == projectsData[k].list.id
                        && forall j :: 0 <= j < k ==> projectsData[j].pageId != ProjectPageIdOf(page)
  {
    match FindProject(projectsData, ProjectPageIdOf(page))
    case None => Err(UnknownProject)
    case Some(projectData) => Ok(TaskLiteral(page, projectData.list.id, ref))
  }

  /** The task literal parseNotionPageToTask builds from a page, once the
      list it belongs to is known. */
  function TaskLiteral(page: Page, taskListId: Id, ref: ObjRef): Task
    requires IsTaskPage(page)
  {
    Entity(ref, GTaskIdOf(page), TaskFields(
      NameOf(page),
      Some(page.properties["Task URL"].url),
      None,
      if page.properties["Done"].checkbox then "completed" else "needsAction",
      page.properties["Due"].date,
      page.properties["Completed"].date,
      None,
      taskListId))
  }

  /** A list survives the trip to a Notion page and back, with an absent
      selfLink turned into "". */
  lemma {:induction false} ListRoundTrip(list: TaskList, ref: ObjRef)
    ensures ParseNotionPageToList(ParseListToNotionPage(list), ref)
            == Entity(ref, list.id, ListFields(list.fields.title, Some(list.fields.selfLink.GetOr(""))))
  {
  }

  /** The page ids of the registered projects are distinct. */
  predicate UniquePageIds(projects: seq<ProjectData>)
  {
    forall i, j :: 0 <= i < j < |projects| ==> projects[i].pageId != projects[j].pageId
  }

  /** A task survives the trip to a Notion page and back when its project is
      registered: id, title, and a truthy due/completed are kept, a falsy
      one becomes absent, selfLink defaults to "", the status becomes
      "completed" or "needsAction", and the owning list is the project's. */
  lemma {:induction false} TaskRoundTrip(task: Task, pageId: Id, list: TaskList, projectsData: seq<ProjectData>, ref: ObjRef)
    requires UniquePageIds(projectsData) && ProjectData(pageId, list) in projectsData
    ensures ParseNotionPageToTask(ParseTaskToNotionPage(task, pageId), projectsData, ref)
            == Ok(Entity(ref, task.id, TaskFields(
                 task.fields.title,
                 Some(task.fields.selfLink.GetOr("")),
                 None,
                 if task.fields.status == "completed" then "completed" else "needsAction",
                 if Truthy(task.fields.due) then task.fields.due else None,
                 if Truthy(task.fields.completed) then task.fields.completed else None,
                 None,
                 list.id)))
  {
    var page := ParseTaskToNotionPage(task, pageId);
    assert ProjectPageIdOf(page) == pageId;
    var i :| 0 <= i < |projectsData| && projectsData[i] == ProjectData(pageId, list);
    var r := ParseNotionPageToTask(page, projectsData, ref);
    var k :| 0 <= k < |projectsData| && projectsData[k].pageId == pageId && r.value.fields.taskListId == projectsData[k].list.id;
    assert k == i;
  }

  /** A task whose status is one of the two Google Tasks statuses keeps it,
      and one whose due and completed dates are set keeps them. The parsed
      task is the new object literal `ref`, not the original object: only
      its id and fields come back. */
  lemma {:induction false} TaskRoundTripExact(task: Task, pageId: Id, list: TaskList, projectsData: seq<ProjectData>, ref: ObjRef)
    requires UniquePageIds(projectsData) && ProjectData(pageId, list) in projectsData
    requires task.fields.status == "completed" || task.fields.status == "needsAction"
    requires Truthy(task.fields.due) && Truthy(task.fields.completed)
    requires task.fields.selfLink.Some? && task.fields.parent.None? && task.fields.deleted.None?
    requires task.fields.taskListId == list.id
    ensures ParseNotionPageToTask(ParseTaskToNotionPage(task, pageId), projectsData, ref)
            == Ok(Entity(ref, task.id, task.fields))
  {
    TaskRoundTrip(task, pageId, list, projectsData, ref);
  }

  // =====================================================================
  // parseNotionData

  /** `if (page.id)`: the id is present and not "". */
  predicate HasPageId(page: Page)
  {
    page.id.Some? && page.id.value != ""
  }

  /** Every page parseNotionData parses as a list has the list properties. */
  predicate ListPagesWellFormed(listPages: seq<Page>)
  {
    forall i :: 0 <= i < |listPages| && HasPageId(listPages[i]) ==> IsListPage(listPages[i])
  }

  /** Every page parseNotionData parses as a task has the task properties. */
  predicate TaskPagesWellFormed(taskPages: seq<Page>)
  {
    forall i :: 0 <= i < |taskPages| && HasPageId(taskPages[i]) ==> IsTaskPage(taskPages[i])
  }

  /** The projects parsed from listPages; the i-th page allocates object base + i. */
  function ParsedProjects(listPages: seq<Page>, base: ObjRef): seq<ProjectData>
    requires ListPagesWellFormed(listPages)
  {
    if listPages == [] then []
    else
      var p, page := listPages[..|listPages| - 1], listPages[|listPages| - 1];
      ParsedProjects(p, base)
        + (if HasPageId(page) then [ProjectData(page.id.value, ParseNotionPageToList(page, base + |p|))] else [])
  }

  /** The outcome of parsing one task page on its own: nothing for a page
      without an id, otherwise its task or its error. */
  function OnePageTasks(page: Page, projects: seq<ProjectData>, ref: ObjRef): (r: Result<seq<TaskData>>)
    requires HasPageId(page) ==> IsTaskPage(page)
    ensures r.Ok? ==> |r.value| <= 1
  {
    if !HasPageId(page) then Ok([])
    else
      match ParseNotionPageToTask(page, projects, ref)
      case Err(e) => Err(e)
      case Ok(t) => Ok([TaskData(page.id.value, t, ProjectPageIdOf(page))])
  }

  /** The outcome of each task page on its own, in page order; the i-th
      page allocates object base + i. */
  function PageOutcomes(taskPages: seq<Page>, projects: seq<ProjectData>, base: ObjRef): (rs: seq<Result<seq<TaskData>>>)
    requires TaskPagesWellFormed(taskPages)
    ensures |rs| == |taskPages|
    ensures forall i :: 0 <= i < |taskPages| ==> rs[i] == OnePageTasks(taskPages[i], projects, base + i)
  {
    seq(|taskPages|, i requires 0 <= i < |taskPages| => OnePageTasks(taskPages[i], projects, base + i))
  }

  /** The outcomes of a concatenation are those of its parts. */
  lemma {:induction false} PageOutcomesConcat(a: seq<Page>, b: seq<Page>, projects: seq<ProjectData>, base: ObjRef)
    requires TaskPagesWellFormed(a + b)
    ensures TaskPagesWellFormed(a) && TaskPagesWellFormed(b)
    ensures PageOutcomes(a + b, projects, base) == PageOutcomes(a, projects, base) + PageOutcomes(b, projects, base + |a|)
  {
    WellFormedParts(a, b);
    var whole, left, right := PageOutcomes(a + b, projects, base), PageOutcomes(a, projects, base), PageOutcomes(b, projects, base + |a|);
    forall k | 0 <= k < |left| ensures whole[k] == left[k] {
      assert (a + b)[k] == a[k];
    }
    forall k | 0 <= k < |right| ensures whole[|left| + k] == right[k] {
      assert (a + b)[|a| + k] == b[k];
    }
    SeqSplit(whole, left, right);
  }

  lemma {:induction false} WellFormedParts(a: seq<Page>, b: seq<Page>)
    requires TaskPagesWellFormed(a + b)
    ensures TaskPagesWellFormed(a) && TaskPagesWellFormed(b)
  {
    assert forall i :: 0 <= i < |a| ==> a[i] == (a + b)[i];
    assert forall i :: 0 <= i < |b| ==> b[i] == (a + b)[|a| + i];
  }

  /** A sequence of at most one element that holds t is [t]. */
  lemma {:induction false} OnlyMember<T>(s: seq<T>, t: T)
    requires |s| <= 1 && t in s
    ensures s == [t]
  {
  }

  /** A sequence that starts like left and goes on like right is left + right. */
  lemma {:induction false} SeqSplit<T>(whole: seq<T>, left: seq<T>, right: seq<T>)
    requires |whole| == |left| + |right|
    requires forall k :: 0 <= k < |left| ==> whole[k] == left[k]
    requires forall k :: 0 <= k < |right| ==> whole[|left| + k] == right[k]
    ensures whole == left + right
  {
    assert forall k :: |left| <= k < |whole| ==> whole[k] == right[k - |left|];
  }

  /** The outcome of one run of pages followed by the next: the first error
      wins, and otherwise the tasks are concatenated. */
  function ThenTasks(first: Result<seq<TaskData>>, rest: Result<seq<TaskData>>): Result<seq<TaskData>>
  {
    if first.Err? then first
    else if rest.Err? then rest
    else Ok(first.value + rest.value)
  }

  /** The outcomes of a run of pages, combined in order. */
  function Collect(rs: seq<Result<seq<TaskData>>>): Result<seq<TaskData>>
  {
    if rs == [] then Ok([]) else ThenTasks(Collect(rs[..|rs| - 1]), rs[|rs| - 1])
  }

  /** The task data parsed from taskPages against projects, or the error of
      the first page whose project is not registered; the i-th page
      allocates object base + i. */
  function ParsedTasks(taskPages: seq<Page>, projects: seq<ProjectData>, base: ObjRef): Result<seq<TaskData>>
    requires TaskPagesWellFormed(taskPages)
  {
    Collect(PageOutcomes(taskPages, projects, base))
  }

  /** parseNotionData: all list pages are parsed first, then every task page
      against the complete project list. Parsed objects are allocated from
      base on, list pages first. */
  method ParseNotionData(listPages: seq<Page>, taskPages: seq<Page>, base: ObjRef) returns (r: Result<NotionData>)
    requires ListPagesWellFormed(listPages) && TaskPagesWellFormed(taskPages)
    ensures var projects := ParsedProjects(listPages, base);
      match ParsedTasks(taskPages, projects, base + |listPages|)
      case Ok(tasks) => r == Ok(NotionData(tasks, projects))
      case Err(e) => r == Err(e)
  {
    var projects := ParseListPages(listPages, base);
    var tasks := ParseTaskPages(taskPages, projects, base + |listPages|);
    if tasks.Err? {
      return Err(tasks.error);
    }
    r := Ok(NotionData(tasks.value, projects));
  }

  /** The first loop of parseNotionData: every list page with an id
      registers a project, in page order. */
  method ParseListPages(listPages: seq<Page>, base: ObjRef) returns (projects: seq<ProjectData>)
    requires ListPagesWellFormed(listPages)
    ensures projects == ParsedProjects(listPages, base)
  {
    projects := [];
    for i := 0 to |listPages|
      invariant projects == ParsedProjects(listPages[..i], base)
    {
      assert listPages[..i + 1][..i] == listPages[..i];
      var listPage := listPages[i];
      if listPage.id.Some? && listPage.id.value != "" {
        var newList := ProjectData(listPage.id.value, ParseNotionPageToList(listPage, base + i));
        projects := projects + [newList];
      }
    }
    assert listPages[..|listPages|] == listPages;
  }

  /** The second loop of parseNotionData: every task page with an id is
      parsed against projects, in page order, and the first page whose
      project is missing ends the run with its error. */
  method ParseTaskPages(taskPages: seq<Page>, projects: seq<ProjectData>, base: ObjRef) returns (r: Result<seq<TaskData>>)
    requires TaskPagesWellFormed(taskPages)
    ensures r == ParsedTasks(taskPages, projects, base)
  {
    var tasks: seq<TaskData> := [];
    assert ParsedPrefix(taskPages, 0, projects, base, tasks) by {
      assert taskPages[..0] == [];
    }
    for i := 0 to |taskPages|
      invariant ParsedPrefix(taskPages, i, projects, base, tasks)
    {
      var taskPage := taskPages[i];
      ghost var outcome := OnePageTasks(taskPage, projects, base + i);
      ParsedTasksExtend(taskPages, i, projects, base, tasks);
      if taskPage.id.Some? && taskPage.id.value != "" {
        var task := ParseNotionPageToTask(taskPage, projects, base + i);
        if task.Err? {
          assert outcome == Err(task.error);
          return Err(task.error);
        }
        var newTask := TaskData(taskPage.id.value, task.value, ProjectPageIdOf(taskPage));
        assert outcome == Ok([newTask]);
        tasks := tasks + [newTask];
      } else {
        assert outcome == Ok([]) && tasks + [] == tasks;
      }
    }
    assert taskPages[..|taskPages|] == taskPages;
    r := Ok(tasks);
  }

  /** Parsing two runs of list pages parses each in turn. */
  lemma {:induction false} ParsedProjectsConcat(a: seq<Page>, b: seq<Page>, base: ObjRef)
    requires ListPagesWellFormed(a + b)
    ensures ListPagesWellFormed(a) && ListPagesWellFormed(b)
    ensures ParsedProjects(a + b, base) == ParsedProjects(a, base) + ParsedProjects(b, base + |a|)
  {
    assert forall i :: 0 <= i < |a| ==> a[i] == (a + b)[i];
    assert forall i :: 0 <= i < |b| ==> b[i] == (a + b)[|a| + i];
    if b != [] {
      var p := b[..|b| - 1];
      assert (a + b)[..|a + b| - 1] == a + p;
      ParsedProjectsConcat(a, p, base);
    } else {
      assert a + b == a;
    }
  }

  /** Pages without an id are skipped; each page with one contributes its
      project, in page order. */
  lemma {:induction false} ParsedProjectsSkipAndOrder(listPages: seq<Page>, base: ObjRef)
    requires ListPagesWellFormed(listPages)
    ensures (forall i :: 0 <= i < |listPages| ==> !HasPageId(listPages[i])) ==> ParsedProjects(listPages, base) == []
    ensures (forall i :: 0 <= i < |listPages| ==> HasPageId(listPages[i])) ==>
              |ParsedProjects(listPages, base)| == |listPages| &&
              forall i :: 0 <= i < |listPages| ==>
                ParsedProjects(listPages, base)[i]
                  == ProjectData(listPages[i].id.value, ParseNotionPageToList(listPages[i], base + i))
  {
    if (forall i :: 0 <= i < |listPages| ==> !HasPageId(listPages[i])) {
      NoIdNoProjects(listPages, base);
    }
    if (forall i :: 0 <= i < |listPages| ==> HasPageId(listPages[i])) {
      AllIdsAligned(listPages, base);
    }
  }

  lemma {:induction false} NoIdNoProjects(listPages: seq<Page>, base: ObjRef)
    requires ListPagesWellFormed(listPages)
    requires forall i :: 0 <= i < |listPages| ==> !HasPageId(listPages[i])
    ensures ParsedProjects(listPages, base) == []
  {
    if listPages != [] {
      NoIdNoProjects(listPages[..|listPages| - 1], base);
    }
  }

  lemma {:induction false} AllIdsAligned(listPages: seq<Page>, base: ObjRef)
    requires ListPagesWellFormed(listPages)
    requires forall i :: 0 <= i < |listPages| ==> HasPageId(listPages[i])
    ensures |ParsedProjects(listPages, base)| == |listPages|
    ensures forall i :: 0 <= i < |listPages| ==>
              ParsedProjects(listPages, base)[i]
                == ProjectData(listPages[i].id.value, ParseNotionPageToList(listPages[i], base + i))
  {
    if listPages != [] {
      var p := listPages[..|listPages| - 1];
      AllIdsAligned(p, base);
      assert forall i :: 0 <= i < |p| ==> p[i] == listPages[i];
    }
  }

  // ---------------------------------------------------------------------
  // Combining page outcomes

  lemma {:induction false} ThenTasksAssoc(x: Result<seq<TaskData>>, y: Result<seq<TaskData>>, z: Result<seq<TaskData>>)
    ensures ThenTasks(ThenTasks(x, y), z) == ThenTasks(x, ThenTasks(y, z))
  {
    if x.Ok? && y.Ok? && z.Ok? {
      assert x.value + y.value + z.value == x.value + (y.value + z.value);
    }
  }

  /** Combining two runs of outcomes combines the two results. */
  lemma {:induction false} CollectConcat(a: seq<Result<seq<TaskData>>>, b: seq<Result<seq<TaskData>>>)
    ensures Collect(a + b) == ThenTasks(Collect(a), Collect(b))
  {
    if b == [] {
      assert a + b == a;
      if Collect(a).Ok? {
        assert Collect(a).value + [] == Collect(a).value;
      }
    } else {
      var p := b[..|b| - 1];
      assert (a + b)[..|a + b| - 1] == a + p;
      CollectConcat(a, p);
      ThenTasksAssoc(Collect(a), Collect(p), b[|b| - 1]);
    }
  }

  /** The combined outcome succeeds exactly when every outcome does. */
  lemma {:induction false} CollectOk(rs: seq<Result<seq<TaskData>>>)
    ensures Collect(rs).Ok? <==> forall i :: 0 <= i < |rs| ==> rs[i].Ok?
  {
    if rs != [] {
      var p := rs[..|rs| - 1];
      CollectOk(p);
      assert forall i :: 0 <= i < |p| ==> p[i] == rs[i];
    }
  }

  /** Every combined task belongs to one of the outcomes. */
  lemma {:induction false} CollectMembers(rs: seq<Result<seq<TaskData>>>, t: TaskData)
    requires Collect(rs).Ok? && t in Collect(rs).value
    ensures exists i :: 0 <= i < |rs| && rs[i].Ok? && t in rs[i].value
  {
    var p := rs[..|rs| - 1];
    if t in Collect(p).value {
      CollectMembers(p, t);
      var i :| 0 <= i < |p| && p[i].Ok? && t in p[i].value;
      assert p[i] == rs[i];
    }
  }

  /** Outcomes of at most one task each combine into at most one task per
      outcome; outcomes of exactly one task each combine into those tasks,
      in order. */
  lemma {:induction false} CollectSingles(rs: seq<Result<seq<TaskData>>>)
    requires Collect(rs).Ok?
    ensures forall i :: 0 <= i < |rs| ==> rs[i].Ok?
    ensures (forall i :: 0 <= i < |rs| ==> |rs[i].value| <= 1) ==> |Collect(rs).value| <= |rs|
    ensures (forall i :: 0 <= i < |rs| ==> |rs[i].value| == 1) ==>
              |Collect(rs).value| == |rs| && forall i :: 0 <= i < |rs| ==> rs[i].value == [Collect(rs).value[i]]
  {
    CollectOk(rs);
    if rs != [] {
      var p := rs[..|rs| - 1];
      assert forall i :: 0 <= i < |p| ==> p[i] == rs[i];
      CollectOk(p);
      CollectSingles(p);
      var v, pv, last := Collect(rs).value, Collect(p).value, rs[|rs| - 1].value;
      assert v == pv + last;
      if forall i :: 0 <= i < |rs| ==> |rs[i].value| == 1 {
        forall i | 0 <= i < |rs| ensures rs[i].value == [v[i]] {
          if i < |p| {
            assert v[i] == pv[i];
          } else {
            assert last == [last[0]];
          }
        }
      }
    }
  }

  // ---------------------------------------------------------------------
  // Parsing task pages

  /** One more page extends the outcome by that page's own outcome. */
  lemma {:induction false} ParsedTasksStep(taskPages: seq<Page>, i: nat, projects: seq<ProjectData>, base: ObjRef)
    requires TaskPagesWellFormed(taskPages) && i < |taskPages|
    ensures TaskPagesWellFormed(taskPages[..i]) && TaskPagesWellFormed(taskPages[..i + 1])
    ensures ParsedTasks(taskPages[..i + 1], projects, base)
            == ThenTasks(ParsedTasks(taskPages[..i], projects, base), OnePageTasks(taskPages[i], projects, base + i))
  {
    var q := taskPages[..i + 1];
    assert q[..i] == taskPages[..i] && q[i] == taskPages[i];
    var rs := PageOutcomes(q, projects, base);
    assert rs[..i] == PageOutcomes(taskPages[..i], projects, base);
    assert rs[i] == OnePageTasks(taskPages[i], projects, base + i);
  }

  /** Parsing two runs of task pages parses each in turn, the second from
      base + |a| on: the tasks of a come first, then those of b, and the
      first error wins. */
  lemma {:induction false} ParsedTasksConcat(a: seq<Page>, b: seq<Page>, projects: seq<ProjectData>, base: ObjRef)
    requires TaskPagesWellFormed(a + b)
    ensures TaskPagesWellFormed(a) && TaskPagesWellFormed(b)
    ensures ParsedTasks(a + b, projects, base)
            == ThenTasks(ParsedTasks(a, projects, base), ParsedTasks(b, projects, base + |a|))
  {
    PageOutcomesConcat(a, b, projects, base);
    CollectConcat(PageOutcomes(a, projects, base), PageOutcomes(b, projects, base + |a|));
  }

  /** One task page contributes nothing when it has no id, and otherwise
      exactly its own task, or the error of its missing project. */
  lemma {:induction false} ParsedTasksOnePage(page: Page, projects: seq<ProjectData>, ref: ObjRef)
    requires HasPageId(page) ==> IsTaskPage(page)
    ensures TaskPagesWellFormed([page])
    ensures ParsedTasks([page], projects, ref) == OnePageTasks(page, projects, ref)
    ensures HasPageId(page) && ParsedTasks([page], projects, ref).Ok? ==>
              ParsedTasks([page], projects, ref).value
                == [TaskData(page.id.value, ParseNotionPageToTask(page, projects, ref).value, ProjectPageIdOf(page))]
    ensures !HasPageId(page) ==> ParsedTasks([page], projects, ref) == Ok([])
  {
    var one := OnePageTasks(page, projects, ref);
    assert PageOutcomes([page], projects, ref) == [one];
    assert [one][..0] == [];
    assert Collect([one]) == ThenTasks(Collect([]), one);
    if one.Ok? {
      assert [] + one.value == one.value;
    }
  }

  /** The first i task pages parse to ts. */
  predicate ParsedPrefix(taskPages: seq<Page>, i: nat, projects: seq<ProjectData>, base: ObjRef, ts: seq<TaskData>)
    requires TaskPagesWellFormed(taskPages) && i <= |taskPages|
  {
    assert TaskPagesWellFormed(taskPages[..i]) by {
      assert forall k :: 0 <= k < i ==> taskPages[..i][k] == taskPages[k];
    }
    ParsedTasks(taskPages[..i], projects, base) == Ok(ts)
  }

  /** One more task page: its outcome is appended to the tasks parsed so
      far, and the first page whose project is missing decides the outcome
      of the whole run. */
  lemma {:induction false} ParsedTasksExtend(taskPages: seq<Page>, i: nat, projects: seq<ProjectData>, base: ObjRef, ts: seq<TaskData>)
    requires TaskPagesWellFormed(taskPages) && i < |taskPages|
    requires ParsedPrefix(taskPages, i, projects, base, ts)
    ensures OnePageTasks(taskPages[i], projects, base + i).Ok? ==>
              ParsedPrefix(taskPages, i + 1, projects, base, ts + OnePageTasks(taskPages[i], projects, base + i).value)
    ensures OnePageTasks(taskPages[i], projects, base + i).Err? ==>
              ParsedTasks(taskPages, projects, base) == OnePageTasks(taskPages[i], projects, base + i)
  {
    ParsedTasksStep(taskPages, i, projects, base);
    if OnePageTasks(taskPages[i], projects, base + i).Err? {
      assert taskPages == taskPages[..i + 1] + taskPages[i + 1..];
      ParsedTasksConcat(taskPages[..i + 1], taskPages[i + 1..], projects, base);
    }
  }

  /** parseNotionData fails exactly when some task page with an id points to
      a project that no list page registers. */
  lemma {:induction false} ParsedTasksOk(taskPages: seq<Page>, projects: seq<ProjectData>, base: ObjRef)
    requires TaskPagesWellFormed(taskPages)
    ensures ParsedTasks(taskPages, projects, base).Ok? <==>
              forall i :: 0 <= i < |taskPages| && HasPageId(taskPages[i]) ==>
                exists k :: 0 <= k < |projects| && projects[k].pageId == ProjectPageIdOf(taskPages[i])
  {
    var rs := PageOutcomes(taskPages, projects, base);
    CollectOk(rs);
  }

  /** t is what one of the task pages parses to on its own. */
  predicate ParsedFromSomePage(t: TaskData, taskPages: seq<Page>, projects: seq<ProjectData>, base: ObjRef)
    requires TaskPagesWellFormed(taskPages)
  {
    exists i :: 0 <= i < |taskPages| && OnePageTasks(taskPages[i], projects, base + i) == Ok([t])
  }

  /** Each parsed task is what some task page parses to on its own (so the
      page has an id, and the task records it and its project page); there
      are no more tasks than pages. */
  lemma {:induction false} ParsedTasksFromPages(taskPages: seq<Page>, projects: seq<ProjectData>, base: ObjRef)
    requires TaskPagesWellFormed(taskPages)
    requires ParsedTasks(taskPages, projects, base).Ok?
    ensures |ParsedTasks(taskPages, projects, base).value| <= |taskPages|
    ensures forall t :: t in ParsedTasks(taskPages, projects, base).value ==>
              ParsedFromSomePage(t, taskPages, projects, base)
  {
    var rs := PageOutcomes(taskPages, projects, base);
    assert forall i :: 0 <= i < |rs| ==> rs[i].Ok? ==> |rs[i].value| <= 1;
    CollectSingles(rs);
    forall t | t in Collect(rs).value ensures ParsedFromSomePage(t, taskPages, projects, base) {
      CollectMembers(rs, t);
      var i :| 0 <= i < |rs| && rs[i].Ok? && t in rs[i].value;
      assert rs[i] == OnePageTasks(taskPages[i], projects, base + i);
      OnlyMember(rs[i].value, t);
    }
  }

  /** When every task page has an id and parsing succeeds, there is one
      task per page, in page order: the i-th task is what the i-th page
      parses to on its own, allocated as object base + i. */
  lemma {:induction false} ParsedTasksAligned(taskPages: seq<Page>, projects: seq<ProjectData>, base: ObjRef)
    requires TaskPagesWellFormed(taskPages)
    requires forall i :: 0 <= i < |taskPages| ==> HasPageId(taskPages[i])
    requires ParsedTasks(taskPages, projects, base).Ok?
    ensures |ParsedTasks(taskPages, projects, base).value| == |taskPages|
    ensures forall i :: 0 <= i < |taskPages| ==>
              OnePageTasks(taskPages[i], projects, base + i) == Ok([ParsedTasks(taskPages, projects, base).value[i]])
  {
    var rs := PageOutcomes(taskPages, projects, base);
    CollectOk(rs);
    CollectSingles(rs);
  }

  // =====================================================================
  // parseNotionState

  /** parseNotionState: the tasks and the lists of the parsed data, in order. */
  method ParseNotionState(notionData: NotionData) returns (state: SyncState)
    ensures fresh(state)
    ensures |state.tasks| == |notionData.tasks| && |state.tasklists| == |notionData.projects|
    ensures forall i :: 0 <= i < |notionData.tasks| ==> state.tasks[i] == notionData.tasks[i].task
    ensures forall i :: 0 <= i < |notionData.projects| ==> state.tasklists[i] == notionData.projects[i].list
  {
    state := new SyncState([], []);
    for i := 0 to |notionData.tasks|
      invariant |state.tasks| == i && state.tasklists == []
      invariant forall j :: 0 <= j < i ==> state.tasks[j] == notionData.tasks[j].task
    {
      state.tasks := state.tasks + [notionData.tasks[i].task];
    }
    for i := 0 to |notionData.projects|
      invariant |state.tasklists| == i && |state.tasks| == |notionData.tasks|
      invariant forall j :: 0 <= j < |notionData.tasks| ==> state.tasks[j] == notionData.tasks[j].task
      invariant forall j :: 0 <= j < i ==> state.tasklists[j] == notionData.projects[j].list
    {
      state.tasklists := state.tasklists + [notionData.projects[i].list];
    }
  }
}
