/**
 * `TodoList.all(project_id, complete = nil)`: the `complete` argument picks
 * the list filter the server applies; any other value is refused before a
 * request is made.
 */
module TodoLists {
  import opened Wrappers
  import opened Tree

  /**
   * The `case complete` of `TodoList.all`: nil asks for every list, true for
   * the finished ones, false for the pending ones; anything else raises
   * "invalid value for `complete'".
   */
  function CompleteFilter(complete: Value): (r: Result<string, Failure>)
    ensures r.Err? <==> !(complete.Nil? || complete.Bool?)
    ensures r.Err? ==> r.error == InvalidFilter(complete)
    ensures r.Ok? ==> r.value in ["all", "finished", "pending"]
  {
    match complete
    case Nil => Ok("all")
    case Bool(b) => if b then Ok("finished") else Ok("pending")
    case _ => Err(InvalidFilter(complete))
  }

  /** Each accepted value has its own filter, so the filter tells which was given. */
  lemma FilterInjective(a: Value, b: Value)
    requires CompleteFilter(a).Ok? && CompleteFilter(a) == CompleteFilter(b)
    ensures a == b
  {
  }

  /** Which value selects which filter, in both directions. */
  lemma FilterMeaning(complete: Value)
    ensures CompleteFilter(complete) == Ok("all") <==> complete == Nil
    ensures CompleteFilter(complete) == Ok("finished") <==> complete == Bool(true)
    ensures CompleteFilter(complete) == Ok("pending") <==> complete == Bool(false)
  {
  }

  /**
   * The parameters `TodoList.all` hands to `find(:all, ...)`: the project id
   * and the filter, in that order.
   */
  function AllParams(projectId: Value, complete: Value): (r: Result<seq<Field>, Failure>)
    ensures r.Err? <==> CompleteFilter(complete).Err?
    ensures r.Err? ==> r.error == InvalidFilter(complete)
    ensures r.Ok? ==> FieldKeys(r.value) == ["project_id", "filter"] && r.value[0].val == projectId
    ensures r.Ok? ==> r.value[1].val.Str? && CompleteFilter(complete) == Ok(r.value[1].val.s)
  {
    var filter :- CompleteFilter(complete);
    Ok([Field("project_id", projectId), Field("filter", Str(filter))])
  }
}
