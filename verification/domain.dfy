/**
 * The records the application exchanges with the project-tracking service, as declared in
 * src/contexts/AppContext.tsx. Only the fields the modelled logic reads are kept.
 */
module Domain {
  import opened Wrappers

  datatype Project = Project(id: string, key: string, name: string)

  datatype Sprint = Sprint(id: int, name: string, state: string)

  datatype Person = Person(accountId: string, emailAddress: string, displayName: string)

  datatype Epic = Epic(name: string, key: string)

  /**
   * An issue. `parentSummary` stands for `fields.parent?.fields?.summary`: `None` when the
   * parent, its fields or its summary are missing.
   */
  datatype Issue = Issue(
    id: string,
    key: string,
    summary: string,
    statusName: string,
    assignee: Option<Person>,
    reporter: Option<Person>,
    priorityName: string,
    issueTypeName: string,
    epic: Option<Epic>,
    parentSummary: Option<string>)
}
