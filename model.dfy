/** Data model of the Notion / Google Tasks synchroniser.

    Google Tasks entities (src/models/types.ts), the change-sets the
    reconciliation core exchanges and the sync state it mutates
    (src/helpers/stateHelpers.ts), and the Notion page shapes
    (src/models/notionTypes.ts).

    Every JavaScript object has an identity that `!==` compares. An entity
    therefore carries an object reference `ref` beside its data: two
    entities with the same `ref` are the same object, two with different
    `ref`s are different objects even when every other field is equal. */
module Model {

  datatype Option<T> = None | Some(value: T)
  {
    /** `x ?? default` */
    function GetOr(default: T): T
    {
      match this
      case Some(v) => v
      case None => default
    }
  }

  /** JavaScript truthiness of a string that may be undefined: "" is falsy. */
  predicate Truthy(s: Option<string>)
  {
    s.Some? && s.value != ""
  }

  /** A stable Google Tasks identifier (task id, list id) or a Notion page id. */
  type Id = string

  /** The identity of a JavaScript object. */
  type ObjRef = nat

  /** A JavaScript object with an `id` field: its identity, its id and the rest of its fields. */
  datatype Entity<F> = Entity(ref: ObjRef, id: Id, fields: F)

  /** The fields of a TaskList besides `id`. */
  datatype ListFields = ListFields(title: string, selfLink: Option<string>)

  /** The fields of a Task besides `id`; `taskListId` is the id of the list that owns it. */
  datatype TaskFields = TaskFields(
    title: string,
    selfLink: Option<string>,
    parent: Option<Id>,
    status: string,
    due: Option<string>,
    completed: Option<string>,
    deleted: Option<bool>,
    taskListId: Id)

  type TaskList = Entity<ListFields>
  type Task = Entity<TaskFields>

  /** One entry of an `updated` list: `{id, newValue}`. */
  datatype Update<F> = Update(id: Id, newValue: Entity<F>)

  /** The three operation lists of a change-set for one entity type. */
  datatype Changes<F> = Changes(added: seq<Entity<F>>, updated: seq<Update<F>>, deleted: seq<Id>)

  /** SyncStateChanges: one change-set per entity type. */
  datatype SyncStateChanges = SyncStateChanges(tasks: Changes<TaskFields>, taskLists: Changes<ListFields>)

  /** A snapshot `{tasklists, tasks}`; its arrays are pushed to and reassigned in place. */
  class SyncState {
    var tasklists: seq<TaskList>
    var tasks: seq<Task>

    constructor (tasklists: seq<TaskList>, tasks: seq<Task>)
      ensures this.tasklists == tasklists && this.tasks == tasks
    {
      this.tasklists := tasklists;
      this.tasks := tasks;
    }
  }

  // ---------------------------------------------------------------------
  // Notion pages

  /** A rich-text item `{type: "text", text: {content}}`. */
  datatype RichText = RichText(content: string)

  /** The property kinds a page carries; the constructor plays the part of the `type` tag. */
  datatype Property =
    | TitleProp(title: seq<RichText>)
    | TextProp(richText: seq<RichText>)
    | UrlProp(url: string)
    | DateProp(date: Option<string>)   // `{start}` or null
    | CheckboxProp(checkbox: bool)
    | RelationProp(relation: seq<Id>)  // the ids of `[{id}]`

  /** IPageObject: an optional page id and the property bag. */
  datatype Page = Page(id: Option<Id>, properties: map<string, Property>)

  /** An entry of NotionData.projects. */
  datatype ProjectData = ProjectData(pageId: Id, list: TaskList)

  /** An entry of NotionData.tasks. */
  datatype TaskData = TaskData(pageId: Id, task: Task, projectPageId: Id)

  datatype NotionData = NotionData(tasks: seq<TaskData>, projects: seq<ProjectData>)

  /** The one exception the page parsers throw: a task page whose project is not registered. */
  datatype ParseError = UnknownProject

  datatype Result<T> = Ok(value: T) | Err(error: ParseError)

  // Reading `prop.title[0]`, `prop.rich_text[0]`, `prop.relation[0]`: the
  // property must be of the kind the source casts it to and the array must
  // not be empty.

  predicate HasTitle(page: Page, key: string)
  {
    key in page.properties && page.properties[key].TitleProp? && |page.properties[key].title| > 0
  }

  predicate HasText(page: Page, key: string)
  {
    key in page.properties && page.properties[key].TextProp? && |page.properties[key].richText| > 0
  }

  predicate HasUrl(page: Page, key: string)
  {
    key in page.properties && page.properties[key].UrlProp?
  }

  predicate HasDate(page: Page, key: string)
  {
    key in page.properties && page.properties[key].DateProp?
  }

  predicate HasCheckbox(page: Page, key: string)
  {
    key in page.properties && page.properties[key].CheckboxProp?
  }

  predicate HasRelation(page: Page, key: string)
  {
    key in page.properties && page.properties[key].RelationProp? && |page.properties[key].relation| > 0
  }

  /** `Name.title[0].text.content` */
  function NameOf(page: Page): string
    requires HasTitle(page, "Name")
  {
    page.properties["Name"].title[0].content
  }

  /** `GTaskID.rich_text[0].text.content` */
  function GTaskIdOf(page: Page): Id
    requires HasText(page, "GTaskID")
  {
    page.properties["GTaskID"].richText[0].content
  }

  /** `Project.relation[0].id` */
  function ProjectPageIdOf(page: Page): Id
    requires HasRelation(page, "Project")
  {
    page.properties["Project"].relation[0]
  }
}
