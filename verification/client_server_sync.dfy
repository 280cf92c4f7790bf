/** How the client's reconciled collection tracks the server's store. Both sides are
    compared by task id: the ids the client holds against the ids of the documents the
    caller owns. A successful create, edit, toggle or delete, reconciled as the task list
    does, keeps the two id sets equal; a fetch without a search answered with the caller's
    tasks makes them equal. A fetch with a search narrows the client to the title matches. */
module ClientServerSync {
  import opened Wrappers
  import opened TaskTypes
  import opened TaskController
  import opened TaskApi
  import opened TaskListUpdates

  function ClientIds(tasks: seq<Task>): set<TaskId> {
    set t | t in tasks :: t.id
  }

  function OwnedIds(s: Store, caller: UserId): set<TaskId> {
    set k | k in s && s[k].user == caller
  }

  predicate InSync(tasks: seq<Task>, s: Store, caller: UserId) {
    ClientIds(tasks) == OwnedIds(s, caller)
  }

  /** A create answered with the new document's id, prepended on the client, keeps the sides in sync. */
  lemma CreateKeepsSync(tasks: seq<Task>, s: Store, caller: UserId, form: TaskFormData, freshId: TaskId,
                        defaults: Defaults, accepts: Option<string> -> bool, t: Task)
    requires freshId !in s
    requires InSync(tasks, s, caller)
    requires CreateTask(s, caller, CreatePayload(form), freshId, defaults, accepts).Created?
    requires t.id == freshId
    ensures InSync(AfterCreate(tasks, Success(t)), CreateTask(s, caller, CreatePayload(form), freshId, defaults, accepts).store, caller)
  {
    var s' := CreateTask(s, caller, CreatePayload(form), freshId, defaults, accepts).store;
    assert OwnedIds(s', caller) == OwnedIds(s, caller) + {freshId};
    assert ClientIds([t] + tasks) == ClientIds(tasks) + {t.id} by {
      forall x | x in [t] + tasks ensures x == t || x in tasks { }
    }
  }

  /** The server answers every delete with success and the client then drops the id, so the
      sides stay in sync whether or not the caller owned the task. */
  lemma DeleteKeepsSync(tasks: seq<Task>, s: Store, caller: UserId, id: TaskId)
    requires InSync(tasks, s, caller)
    ensures InSync(AfterDelete(tasks, id, Success(())), DeleteTask(s, caller, id).store, caller)
  {
    var after := RemoveById(tasks, id);
    assert ClientIds(after) == ClientIds(tasks) - {id} by {
      forall x | x in ClientIds(tasks) - {id} ensures x in ClientIds(after) {
        var t :| t in tasks && t.id == x;
        assert multiset(after)[t] == multiset(tasks)[t];
        assert t in multiset(tasks);
      }
    }
  }

  /** An edit leaves both id sets as they were: its body never names `user`, and the
      client replaces entries in place. */
  lemma UpdateKeepsSync(tasks: seq<Task>, s: Store, caller: UserId, editing: Task, form: TaskFormData, u: Task)
    requires InSync(tasks, s, caller)
    ensures var r := UpdateTask(s, caller, editing.id, UpdatePayload(form));
      InSync(AfterUpdate(tasks, Some(editing), Success(u)), r.store, caller)
  {
    ReplaceKeepsIds(tasks, u);
  }

  /** A toggle answered with the toggled task leaves both id sets as they were. */
  lemma ToggleKeepsSync(tasks: seq<Task>, s: Store, caller: UserId, id: TaskId, u: Task)
    requires InSync(tasks, s, caller)
    requires u.id == id
    ensures InSync(AfterToggle(tasks, id, Success(u)), ToggleComplete(s, caller, id).store, caller)
  {
    ReplaceKeepsIds(tasks, u);
  }

  /** Replacing entries by id with a task of that id keeps the set of ids. */
  lemma ReplaceKeepsIds(tasks: seq<Task>, u: Task)
    ensures ClientIds(ReplaceById(tasks, u.id, u)) == ClientIds(tasks)
  {
  }

  /** A fetch without a search, answered with one task per document the list handler
      returns (the task carrying the document's id), brings the client in sync whatever
      it held before. */
  lemma FetchKeepsSync(tasks: seq<Task>, s: Store, caller: UserId, fetched: seq<Task>)
    requires WellFormed(s)
    requires ClientIds(fetched) == set d | d in GetTasks(s, caller) :: d.id
    ensures InSync(AfterFetch(tasks, Success(List(fetched, None))), s, caller)
  {
  }

  /** A fetch with a search can leave the client out of sync: a task the caller owns whose
      title does not match the query is dropped from the collection. */
  lemma FetchWithSearchLosesIds(tasks: seq<Task>, s: Store, caller: UserId, fetched: seq<Task>,
                                q: string, t: Task)
    requires ClientIds(fetched) == OwnedIds(s, caller)
    requires t in fetched && q != "" && !TitleMatches(t, Lower(q))
    requires forall u :: u in fetched && u.id == t.id ==> u == t
    ensures !InSync(AfterFetch(tasks, Success(List(fetched, Some(q)))), s, caller)
  {
    var r := List(fetched, Some(q));
    assert t.id in OwnedIds(s, caller);
    forall u | u in r ensures u.id != t.id {
      assert u in multiset(r);
    }
  }
}
