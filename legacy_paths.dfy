/**
 * The paths and parameters of the non-REST interface's calls. Each call is a
 * `record` (one result) or a `records` (a collection of one element name)
 * query against a fixed path; ids are written into the path with `to_s`.
 */
module LegacyPaths {
  import opened Wrappers
  import opened Tree
  import opened RubyString

  /** A call of `record(path, parameters)` or of `records(node, path, parameters)`. */
  datatype Query =
    | Single(path: string, params: seq<Field>)
    | Collection(node: string, path: string, params: seq<Field>)

  /** `account` */
  function Account(): Query {
    Single("/account.xml", [])
  }

  /** `projects` */
  function Projects(): Query {
    Collection("project", "/projects.xml", [])
  }

  /** `message_categories(project_id)` */
  function MessageCategories(projectId: int): Query {
    Collection("post-category", "/projects/" + IntToS(projectId) + "/post_categories", [])
  }

  /** `file_categories(project_id)` */
  function FileCategories(projectId: int): Query {
    Collection("attachment-category", "/projects/" + IntToS(projectId) + "/attachment_categories", [])
  }

  /** `companies` */
  function Companies(): Query {
    Collection("company", "/companies.xml", [])
  }

  /** `company(id)` */
  function Company(id: int): Query {
    Single("/contacts/company/" + IntToS(id), [])
  }

  /**
   * `people(company_id, project_id = nil)`: the company's people, nested
   * under the project when one is given.
   */
  function People(companyId: int, projectId: Option<int>): Query {
    var url := if projectId.Some? then "/projects/" + IntToS(projectId.value) else "";
    Collection("person", url + "/contacts/people/" + IntToS(companyId), [])
  }

  /** `person(id)` */
  function Person(id: int): Query {
    Single("/contacts/person/" + IntToS(id), [])
  }

  /** `complete_milestone(id)` */
  function CompleteMilestone(id: int): Query {
    Single("/milestones/complete/" + IntToS(id), [])
  }

  /** `create_milestones(project_id, milestones)`: every milestone in one request. */
  function CreateMilestones(projectId: int, milestones: seq<Value>): Query {
    Collection("milestone", "/projects/" + IntToS(projectId) + "/milestones/create", [Field("milestone", List(milestones))])
  }

  /** `delete_milestone(id)` */
  function DeleteMilestone(id: int): Query {
    Single("/milestones/delete/" + IntToS(id), [])
  }

  /** `milestones(project_id, find = "all")` */
  function Milestones(projectId: int, find: string := "all"): Query {
    Collection("milestone", "/projects/" + IntToS(projectId) + "/milestones/list", [Field("find", Str(find))])
  }

  /** `uncomplete_milestone(id)` */
  function UncompleteMilestone(id: int): Query {
    Single("/milestones/uncomplete/" + IntToS(id), [])
  }

  /** `update_milestone(id, data, move = false, move_off_weekends = false)` */
  function UpdateMilestone(id: int, data: Value, move: bool := false, moveOffWeekends: bool := false): Query {
    Single("/milestones/update/" + IntToS(id), [
      Field("milestone", data),
      Field("move_upcoming_milestones", Bool(move)),
      Field("move_upcoming_milestones_off_weekends", Bool(moveOffWeekends))])
  }

  // ---------------------------------------------------------------------------
  // What the paths say

  /** Different ids are written differently. */
  lemma IntToSInjective(a: int, b: int)
    requires IntToS(a) == IntToS(b)
    ensures a == b
  {
    ToIOfIntToS(a);
    ToIOfIntToS(b);
  }

  /** An id written after a fixed base can be read back from the path. */
  lemma IdAfterBase(base: string, id: int)
    ensures (base + IntToS(id))[|base|..] == IntToS(id)
    ensures ToI((base + IntToS(id))[|base|..]) == id
  {
    assert (base + IntToS(id))[|base|..] == IntToS(id);
    ToIOfIntToS(id);
  }

  lemma BaseInjective(base: string, a: int, b: int)
    requires base + IntToS(a) == base + IntToS(b)
    ensures a == b
  {
    IdAfterBase(base, a);
    IdAfterBase(base, b);
  }

  /**
   * Each call that takes an id names the object by that id alone: equal paths
   * mean equal ids, and the id reads back from the end of the path.
   */
  lemma SingleRoutesByIdInjective(a: int, b: int)
    ensures Company(a).path == Company(b).path ==> a == b
    ensures Person(a).path == Person(b).path ==> a == b
    ensures CompleteMilestone(a).path == CompleteMilestone(b).path ==> a == b
    ensures DeleteMilestone(a).path == DeleteMilestone(b).path ==> a == b
    ensures UncompleteMilestone(a).path == UncompleteMilestone(b).path ==> a == b
    ensures ToI(Person(a).path[|"/contacts/person/"|..]) == a
    ensures ToI(CompleteMilestone(a).path[|"/milestones/complete/"|..]) == a
  {
    if Company(a).path == Company(b).path { BaseInjective("/contacts/company/", a, b); }
    if Person(a).path == Person(b).path { BaseInjective("/contacts/person/", a, b); }
    if CompleteMilestone(a).path == CompleteMilestone(b).path { BaseInjective("/milestones/complete/", a, b); }
    if DeleteMilestone(a).path == DeleteMilestone(b).path { BaseInjective("/milestones/delete/", a, b); }
    if UncompleteMilestone(a).path == UncompleteMilestone(b).path { BaseInjective("/milestones/uncomplete/", a, b); }
    IdAfterBase("/contacts/person/", a);
    IdAfterBase("/milestones/complete/", a);
  }

  /** Equal strings with equal tails have equal heads. */
  lemma TailCancels(s: string, t: string, tail: string)
    requires s + tail == t + tail
    ensures s == t
  {
    assert |s| == |t|;
    assert s == (s + tail)[..|s|];
    assert t == (t + tail)[..|t|];
  }

  /**
   * The calls scoped to a project name it by its id alone: equal paths mean
   * equal project ids, for the categories and for the milestone list and
   * creation.
   */
  lemma ProjectRoutesById(a: int, b: int, ms: seq<Value>, find: string)
    ensures MessageCategories(a).path == MessageCategories(b).path ==> a == b
    ensures FileCategories(a).path == FileCategories(b).path ==> a == b
    ensures Milestones(a, find).path == Milestones(b, find).path ==> a == b
    ensures CreateMilestones(a, ms).path == CreateMilestones(b, ms).path ==> a == b
  {
    if MessageCategories(a).path == MessageCategories(b).path {
      TailCancels("/projects/" + IntToS(a), "/projects/" + IntToS(b), "/post_categories");
      BaseInjective("/projects/", a, b);
    }
    if FileCategories(a).path == FileCategories(b).path {
      TailCancels("/projects/" + IntToS(a), "/projects/" + IntToS(b), "/attachment_categories");
      BaseInjective("/projects/", a, b);
    }
    if Milestones(a, find).path == Milestones(b, find).path {
      TailCancels("/projects/" + IntToS(a), "/projects/" + IntToS(b), "/milestones/list");
      BaseInjective("/projects/", a, b);
    }
    if CreateMilestones(a, ms).path == CreateMilestones(b, ms).path {
      TailCancels("/projects/" + IntToS(a), "/projects/" + IntToS(b), "/milestones/create");
      BaseInjective("/projects/", a, b);
    }
  }

  /** The four calls on one milestone never share a path, whatever the ids. */
  lemma MilestoneActionsDistinct(a: int, b: int, data: Value, move: bool, off: bool)
    ensures CompleteMilestone(a).path != DeleteMilestone(b).path
    ensures CompleteMilestone(a).path != UncompleteMilestone(b).path
    ensures CompleteMilestone(a).path != UpdateMilestone(b, data, move, off).path
    ensures DeleteMilestone(a).path != UncompleteMilestone(b).path
    ensures DeleteMilestone(a).path != UpdateMilestone(b, data, move, off).path
    ensures UncompleteMilestone(a).path != UpdateMilestone(b, data, move, off).path
  {
    ActionLetters(a, data, move, off);
    ActionLetters(b, data, move, off);
  }

  /** The two letters after "/milestones/" in a milestone action's path. */
  lemma ActionAt(base: string, id: int, x: char, y: char)
    requires |base| > 13 && base[12] == x && base[13] == y
    ensures var q := base + IntToS(id); |q| > 13 && q[12] == x && q[13] == y
  {
  }

  /** Each milestone action is told apart by the two letters after "/milestones/". */
  lemma ActionLetters(id: int, data: Value, move: bool, off: bool)
    ensures var c := CompleteMilestone(id).path; |c| > 13 && c[12] == 'c' && c[13] == 'o'
    ensures var d := DeleteMilestone(id).path; |d| > 13 && d[12] == 'd' && d[13] == 'e'
    ensures var u := UncompleteMilestone(id).path; |u| > 13 && u[12] == 'u' && u[13] == 'n'
    ensures var p := UpdateMilestone(id, data, move, off).path; |p| > 13 && p[12] == 'u' && p[13] == 'p'
  {
    ActionAt("/milestones/complete/", id, 'c', 'o');
    ActionAt("/milestones/delete/", id, 'd', 'e');
    ActionAt("/milestones/uncomplete/", id, 'u', 'n');
    ActionAt("/milestones/update/", id, 'u', 'p');
  }

  /**
   * With a project, `people` asks for the same company's people under that
   * project; the element name does not change.
   */
  lemma PeopleNesting(companyId: int, projectId: int)
    ensures People(companyId, Some(projectId)).path == "/projects/" + IntToS(projectId) + People(companyId, None).path
    ensures People(companyId, Some(projectId)).node == People(companyId, None).node == "person"
    ensures People(companyId, None).path == "/contacts/people/" + IntToS(companyId)
  {
    var tail := "/contacts/people/" + IntToS(companyId);
    assert "" + tail == tail;
  }

  /** The defaults of `milestones` and `update_milestone`. */
  lemma MilestoneDefaults(projectId: int, id: int, data: Value)
    ensures Milestones(projectId).params == [Field("find", Str("all"))]
    ensures UpdateMilestone(id, data).params[1..] ==
      [Field("move_upcoming_milestones", Bool(false)), Field("move_upcoming_milestones_off_weekends", Bool(false))]
  {
  }
}
