/**
 * The "tugas" list: an in-memory list of assignments loaded at start-up, read whole,
 * read by category, and appended to in place.
 */
module Tugas {
  import opened Wrappers

  /**
   * One entry of the list. A field the request body does not carry is `undefined` in the
   * stored object, hence the options.
   */
  datatype Task = Task(category: Option<string>, deadline: Option<string>, title: Option<string>, description: Option<string>)

  /** A JSON answer carrying a list of tasks. */
  datatype Reply = Reply(status: nat, body: seq<Task>)

  /**
   * `jsonTugas.filter((obj) => obj.category === _id)`: the entries whose category is exactly
   * the requested one, in list order; an entry without a category never matches.
   */
  function Filter(tasks: seq<Task>, id: string): (r: seq<Task>)
    ensures |r| <= |tasks|
    ensures forall t | t in r :: t in tasks && t.category == Some(id)
    ensures forall t | t in tasks && t.category == Some(id) :: t in r
  {
    if tasks == [] then []
    else
      var rest := Filter(tasks[1..], id);
      assert forall t | t in tasks && t != tasks[0] :: t in tasks[1..];
      if tasks[0].category == Some(id) then [tasks[0]] + rest else rest
  }

  /** Filtering a concatenation filters each part and keeps the parts in order. */
  lemma {:induction false} FilterAppend(a: seq<Task>, b: seq<Task>, id: string)
    ensures Filter(a + b, id) == Filter(a, id) + Filter(b, id)
  {
    if a != [] {
      assert (a + b)[1..] == a[1..] + b;
      FilterAppend(a[1..], b, id);
    } else {
      assert a + b == b;
    }
  }

  /** Each entry is kept as often as it occurs when its category matches, and dropped otherwise. */
  lemma {:induction false} FilterCount(tasks: seq<Task>, id: string, t: Task)
    ensures multiset(Filter(tasks, id))[t] == if t.category == Some(id) then multiset(tasks)[t] else 0
  {
    if tasks != [] {
      FilterCount(tasks[1..], id, t);
      assert tasks == [tasks[0]] + tasks[1..];
    }
  }

  /** Entries in list order: keeping the matching ones of each single entry and concatenating gives the filter. */
  lemma FilterSingle(t: Task, id: string)
    ensures Filter([t], id) == if t.category == Some(id) then [t] else []
  {
    assert [t][1..] == [];
  }

  /** The module-level list `jsonTugas`, shared by the three handlers. */
  class TaskList {
    var tasks: seq<Task>

    /** The list as loaded from the JSON file at start-up. */
    constructor (initial: seq<Task>)
      ensures tasks == initial
    {
      tasks := initial;
    }

    /** `getAllTugas`: the whole list, as it is, with 200. */
    function GetAllTugas(): (r: Reply)
      reads this
      ensures r.status == 200 && r.body == tasks
    {
      Reply(200, tasks)
    }

    /**
     * `getTugas`: with 200, exactly the entries of the requested category, never more
     * entries than the list holds; the list itself is only read.
     */
    function GetTugas(id: string): (r: Reply)
      reads this
      ensures r.status == 200 && |r.body| <= |tasks|
      ensures forall t :: t in r.body <==> t in tasks && t.category == Some(id)
    {
      Reply(200, Filter(tasks, id))
    }

    /**
     * `addTugas`: pushes one entry built from the body's four fields onto the list, leaving
     * the earlier entries as they were, and answers 200 with the updated list.
     */
    method AddTugas(category: Option<string>, deadline: Option<string>, title: Option<string>, description: Option<string>)
      returns (r: Reply)
      modifies this
      ensures tasks == old(tasks) + [Task(category, deadline, title, description)]
      ensures |tasks| == |old(tasks)| + 1 && tasks[..|old(tasks)|] == old(tasks)
      ensures r == GetAllTugas() && Task(category, deadline, title, description) in r.body
    {
      tasks := tasks + [Task(category, deadline, title, description)];
      r := Reply(200, tasks);
    }
  }

  /** After an append, a category's listing is the old listing plus the new entry when it belongs there. */
  lemma GetAfterAdd(tasks: seq<Task>, t: Task, id: string)
    ensures Filter(tasks + [t], id) == Filter(tasks, id) + (if t.category == Some(id) then [t] else [])
  {
    FilterAppend(tasks, [t], id);
    FilterSingle(t, id);
  }
}
