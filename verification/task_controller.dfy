/** The server's task controller: create, list, update and delete over a store of task
    documents. Update and delete look a document up by task id together with the calling
    user; list selects by the calling user alone; create stores a new document owned by
    the caller under an id the store assigns. The store is a finite map from id to
    document. */
module TaskController {
  import opened Wrappers
  import opened TaskTypes

  /** A stored task document. `user` is the owner. Fields the controller never writes on
      creation hold what the schema supplies; `None` marks a field absent from the document. */
  datatype Doc = Doc(
    id: TaskId,
    user: UserId,
    title: Option<string>,
    description: Option<string>,
    completed: bool,
    dueDate: Option<int>)

  /** What the schema fills in for fields the create call leaves unset. The schema itself is
      not part of this model, so its defaults are a parameter. */
  datatype Defaults = Defaults(description: Option<string>, completed: bool, dueDate: Option<int>)

  type Store = map<TaskId, Doc>

  /** Every document is stored under its own id. */
  predicate WellFormed(s: Store) {
    forall k :: k in s ==> s[k].id == k
  }

  /** The body of a create request, as far as a client fills it. */
  datatype CreateBody = CreateBody(title: Option<string>, description: Option<string>, completed: Option<bool>)

  /** The body of an update request: each field is present (`Some`) or absent (`None`).
      The body reaches the store verbatim, so it may also carry `user`. */
  datatype Patch = Patch(
    title: Option<string>,
    description: Option<string>,
    completed: Option<bool>,
    dueDate: Option<int>,
    user: Option<UserId>)

  const EmptyPatch := Patch(None, None, None, None, None)

  datatype Created = Created(store: Store, task: Doc) | Rejected
  datatype Updated = Updated(store: Store, task: Option<Doc>)
  datatype DeleteAck = DeleteAck(success: bool)
  datatype Deleted = Deleted(store: Store, ack: DeleteAck)

  /** The query `{_id: id, user: caller}` finds a document. */
  predicate Owns(s: Store, id: TaskId, caller: UserId) {
    id in s && s[id].user == caller
  }

  /** `createTask`: stores a new document owned by the caller, taking only the title from the
      request body. `freshId` is the id the store assigns; `accepts` is the schema's verdict on
      the title, which decides whether the store takes the document at all. */
  function CreateTask(s: Store, caller: UserId, body: CreateBody, freshId: TaskId,
                      defaults: Defaults, accepts: Option<string> -> bool): (r: Created)
    requires freshId !in s
    ensures r.Created? <==> accepts(body.title)
    ensures r.Created? ==> r.task.id == freshId && r.task.user == caller && r.task.title == body.title
    ensures r.Created? ==>
      (r.task.description == defaults.description &&
       r.task.completed == defaults.completed && r.task.dueDate == defaults.dueDate)
    ensures r.Created? ==>
      (r.store.Keys == s.Keys + {freshId} && r.store[freshId] == r.task &&
       forall k :: k in s ==> r.store[k] == s[k])
    ensures r.Created? && WellFormed(s) ==> WellFormed(r.store)
  {
    if accepts(body.title) then
      var d := Doc(freshId, caller, body.title, defaults.description, defaults.completed, defaults.dueDate);
      Created(s[freshId := d], d)
    else Rejected
  }

  /** `getTasks`: the documents the caller owns. */
  function GetTasks(s: Store, caller: UserId): (r: set<Doc>)
    ensures forall d :: d in r <==> d in s.Values && d.user == caller
  {
    set k | k in s && s[k].user == caller :: s[k]
  }

  /** A document with every field present in the patch overwritten. */
  function ApplyPatch(d: Doc, p: Patch): (r: Doc)
    ensures r.id == d.id
    ensures r.title == (if p.title.Some? then p.title else d.title)
    ensures r.description == (if p.description.Some? then p.description else d.description)
    ensures r.completed == (if p.completed.Some? then p.completed.value else d.completed)
    ensures r.dueDate == (if p.dueDate.Some? then p.dueDate else d.dueDate)
    ensures r.user == (if p.user.Some? then p.user.value else d.user)
  {
    Doc(d.id,
        if p.user.Some? then p.user.value else d.user,
        if p.title.Some? then p.title else d.title,
        if p.description.Some? then p.description else d.description,
        if p.completed.Some? then p.completed.value else d.completed,
        if p.dueDate.Some? then p.dueDate else d.dueDate)
  }

  /** `updateTask`: patches the document matching both id and caller and answers with the
      document after the update; without a match nothing changes and the answer is `null`. */
  function UpdateTask(s: Store, caller: UserId, id: TaskId, p: Patch): (r: Updated)
    ensures !Owns(s, id, caller) ==> r.store == s && r.task.None?
    ensures Owns(s, id, caller) ==>
      (r.store.Keys == s.Keys && r.store[id] == ApplyPatch(s[id], p) && r.task == Some(r.store[id]))
    ensures forall k :: k in s && k != id ==> k in r.store && r.store[k] == s[k]
    ensures WellFormed(s) ==> WellFormed(r.store)
  {
    if Owns(s, id, caller) then
      var d := ApplyPatch(s[id], p);
      Updated(s[id := d], Some(d))
    else Updated(s, None)
  }

  /** `deleteTask`: removes the document matching both id and caller, if any, and reports
      success whatever happened. */
  function DeleteTask(s: Store, caller: UserId, id: TaskId): (r: Deleted)
    ensures r.ack.success
    ensures r.store == if Owns(s, id, caller) then s - {id} else s
    ensures WellFormed(s) ==> WellFormed(r.store)
  {
    if Owns(s, id, caller) then Deleted(s - {id}, DeleteAck(true))
    else Deleted(s, DeleteAck(true))
  }

  // ---------------------------------------------------------------------------------
  // Ownership isolation

  /** A create by one user adds exactly the new document to that user's list and leaves
      every other user's list as it was. */
  lemma CreateIsolation(s: Store, caller: UserId, other: UserId, body: CreateBody, freshId: TaskId,
                        defaults: Defaults, accepts: Option<string> -> bool)
    requires freshId !in s
    requires other != caller
    ensures var r := CreateTask(s, caller, body, freshId, defaults, accepts);
      r.Created? ==>
        (GetTasks(r.store, other) == GetTasks(s, other) &&
         GetTasks(r.store, caller) == GetTasks(s, caller) + {r.task})
  {
  }

  /** An update by one user leaves every other user's list as it was, unless the body hands
      the document over to that user through its `user` field. */
  lemma UpdateIsolation(s: Store, caller: UserId, other: UserId, id: TaskId, p: Patch)
    requires other != caller
    requires p.user != Some(other)
    ensures GetTasks(UpdateTask(s, caller, id, p).store, other) == GetTasks(s, other)
  {
  }

  /** The update body is passed through verbatim, so a `user` field naming another user moves
      the document into that user's list and out of the caller's: the owner is not fixed
      after creation. */
  lemma UpdateCanReassignOwner(s: Store, alice: UserId, bob: UserId, id: TaskId, p: Patch)
    requires Owns(s, id, alice) && alice != bob && p.user == Some(bob)
    ensures var r := UpdateTask(s, alice, id, p);
      r.task.Some? && r.task.value in GetTasks(r.store, bob) && !Owns(r.store, id, alice)
  {
    var r := UpdateTask(s, alice, id, p);
    assert r.store[id] in r.store.Values;
  }

  /** A delete by one user leaves every other user's list as it was. */
  lemma DeleteIsolation(s: Store, caller: UserId, other: UserId, id: TaskId)
    requires other != caller
    ensures GetTasks(DeleteTask(s, caller, id).store, other) == GetTasks(s, other)
  {
    var s' := DeleteTask(s, caller, id).store;
    if Owns(s, id, caller) {
      forall d ensures d in GetTasks(s', other) <==> d in GetTasks(s, other) {
        if d in GetTasks(s, other) {
          var k :| k in s && s[k] == d;
          assert k != id;
          assert s'[k] == d;
        }
      }
    }
  }

  /** Another user's task is indistinguishable from a missing one: updating or deleting it
      answers and acts exactly as for an id the store does not hold. */
  lemma ForeignLooksMissing(s: Store, caller: UserId, id: TaskId, missing: TaskId, p: Patch)
    requires id in s && s[id].user != caller
    requires missing !in s
    ensures UpdateTask(s, caller, id, p) == UpdateTask(s, caller, missing, p)
    ensures DeleteTask(s, caller, id) == DeleteTask(s, caller, missing)
  {
  }

  // ---------------------------------------------------------------------------------
  // Update and delete laws

  /** An update with an empty body leaves the store as it was. */
  lemma EmptyPatchIsNoOp(s: Store, caller: UserId, id: TaskId)
    ensures UpdateTask(s, caller, id, EmptyPatch).store == s
  {
  }

  /** Repeating a delete gives the same answer and the same store. */
  lemma DeleteIdempotent(s: Store, caller: UserId, id: TaskId)
    ensures var once := DeleteTask(s, caller, id);
      var twice := DeleteTask(once.store, caller, id);
      twice == once
  {
  }
}
