/** The client's task calls: the title search applied after fetching the list, the bodies
    sent for create, edit and toggle, and the toggle itself, taken as one atomic step
    against the server's store. Characters are lower-cased in the ASCII range only. */
module TaskApi {
  import opened Wrappers
  import opened TaskTypes
  import opened Seqs
  import opened TaskController

  // ---------------------------------------------------------------------------------
  // Case folding and substring search

  function LowerChar(c: char): (r: char)
    ensures !('A' <= r <= 'Z')
    ensures 'A' <= c <= 'Z' ==> r as int == c as int + 32
    ensures !('A' <= c <= 'Z') ==> r == c
  {
    if 'A' <= c <= 'Z' then (c as int + 32) as char else c
  }

  /** `toLowerCase`, restricted to ASCII letters. */
  function Lower(s: string): (r: string)
    ensures |r| == |s|
    ensures forall i :: 0 <= i < |s| ==> r[i] == LowerChar(s[i])
  {
    seq(|s|, i requires 0 <= i < |s| => LowerChar(s[i]))
  }

  lemma LowerIdempotent(s: string)
    ensures Lower(Lower(s)) == Lower(s)
  {
  }

  /** `s.includes(q)`: `q` occurs in `s` at some offset. */
  predicate Contains(s: string, q: string)
    ensures q == [] ==> Contains(s, q)
    ensures Contains(s, q) ==> |q| <= |s|
    decreases |s|
  {
    (|q| <= |s| && s[..|q|] == q) || (s != [] && Contains(s[1..], q))
  }

  /** `q` occurs in `s` starting at offset `i`. */
  predicate OccursAt(s: string, q: string, i: int) {
    0 <= i <= |s| - |q| && s[i..i + |q|] == q
  }

  /** `Contains` agrees with the positional definition of an occurrence. */
  lemma {:induction false} ContainsAt(s: string, q: string)
    ensures Contains(s, q) <==> exists i :: OccursAt(s, q, i)
    decreases |s|
  {
    if |q| <= |s| && s[..|q|] == q {
      assert OccursAt(s, q, 0);
    }
    if s != [] {
      ContainsAt(s[1..], q);
      if Contains(s[1..], q) {
        var i :| OccursAt(s[1..], q, i);
        assert s[i + 1..i + 1 + |q|] == s[1..][i..i + |q|];
        assert OccursAt(s, q, i + 1);
      }
      if i :| OccursAt(s, q, i) {
        if i > 0 {
          assert s[1..][i - 1..i - 1 + |q|] == s[i..i + |q|];
          assert OccursAt(s[1..], q, i - 1);
        }
      }
    } else if i :| OccursAt(s, q, i) {
      assert i == 0;
    }
  }

  /** Whether a task's lower-cased title contains the already lower-cased query. */
  predicate TitleMatches(t: Task, q: string)
    ensures TitleMatches(t, q) <==> exists i :: OccursAt(Lower(t.title), q, i)
  {
    ContainsAt(Lower(t.title), q);
    Contains(Lower(t.title), q)
  }

  function MatchesQuery(q: string): Task -> bool {
    t => TitleMatches(t, q)
  }

  /** `taskApi.list`: the fetched tasks, narrowed to the case-insensitive title matches
      when a non-empty search string is given. */
  function List(fetched: seq<Task>, search: Option<string>): (r: seq<Task>)
    ensures search.None? || search.value == "" ==> r == fetched
    ensures search.Some? && search.value != "" ==>
      forall t :: multiset(r)[t] == if TitleMatches(t, Lower(search.value)) then multiset(fetched)[t] else 0
    ensures IsSubsequence(r, fetched)
  {
    if search.None? || search.value == "" then
      IsSubsequenceRefl(fetched);
      fetched
    else
      var p := MatchesQuery(Lower(search.value));
      FilterMultiplicity(fetched, p);
      FilterIsSubsequence(fetched, p);
      Filter(fetched, p)
  }

  /** The search ignores the case of the query. */
  lemma ListIgnoresQueryCase(fetched: seq<Task>, q: string)
    ensures List(fetched, Some(q)) == List(fetched, Some(Lower(q)))
  {
    LowerIdempotent(q);
  }

  /** Searching the result again with the same query changes nothing. */
  lemma ListIdempotent(fetched: seq<Task>, search: Option<string>)
    ensures List(List(fetched, search), search) == List(fetched, search)
  {
    if search.Some? && search.value != "" {
      FilterIdempotent(fetched, MatchesQuery(Lower(search.value)));
    }
  }

  /** Only the title is searched: a task whose title does not hold the query is left out,
      whatever its description holds. */
  lemma ListSearchesTitleOnly(fetched: seq<Task>, t: Task, q: string)
    requires q != "" && !TitleMatches(t, Lower(q))
    ensures t !in List(fetched, Some(q))
  {
    assert multiset(List(fetched, Some(q)))[t] == 0;
  }

  lemma {:induction false} ExampleStrings()
    ensures Lower("MIL") == "mil" && Lower("Buy Milk") == "buy milk" && Lower("Walk dog") == "walk dog"
  {
  }

  lemma {:induction false} ExampleOccurrences()
    ensures Contains("buy milk", "mil") && !Contains("walk dog", "mil")
  {
    assert OccursAt("buy milk", "mil", 4);
    ContainsAt("buy milk", "mil");
    ContainsAt("walk dog", "mil");
    forall i | 0 <= i <= 5 ensures !OccursAt("walk dog", "mil", i) {
      assert "walk dog"[i..i + 3][0] == "walk dog"[i] != 'm';
    }
  }

  /** Searching "MIL" over "Buy Milk" and "Walk dog" keeps only "Buy Milk". */
  lemma ListExample(milk: Task, dog: Task)
    requires milk.title == "Buy Milk" && dog.title == "Walk dog"
    ensures List([milk, dog], Some("MIL")) == [milk]
  {
    ExampleStrings();
    ExampleOccurrences();
    var p := MatchesQuery(Lower("MIL"));
    assert p(milk) && !p(dog);
    assert Filter([dog], p) == [] by {
      assert [dog][1..] == [];
    }
    assert Filter([milk, dog], p) == [milk] + Filter([dog], p) by {
      assert [milk, dog][1..] == [dog];
    }
  }

  // ---------------------------------------------------------------------------------
  // Request bodies

  /** `taskApi.create` sends the form's title and description with `completed` false;
      the due date is never sent. */
  function CreatePayload(form: TaskFormData): (r: CreateBody)
    ensures r.title == Some(form.title) && r.description == Some(form.description)
    ensures r.completed == Some(false)
  {
    CreateBody(Some(form.title), Some(form.description), Some(false))
  }

  /** Whatever the form holds besides its title is lost on creation: the client drops the
      due date and the server keeps only the title of what it receives. */
  lemma CreateKeepsOnlyTitle(s: Store, caller: UserId, a: TaskFormData, b: TaskFormData,
                             freshId: TaskId, defaults: Defaults, accepts: Option<string> -> bool)
    requires freshId !in s
    requires a.title == b.title
    ensures CreateTask(s, caller, CreatePayload(a), freshId, defaults, accepts)
         == CreateTask(s, caller, CreatePayload(b), freshId, defaults, accepts)
  {
  }

  /** The edit form is sent as the update body unchanged: title, description and the due date
      when one is set; it never names `completed` or `user`. */
  function UpdatePayload(form: TaskFormData): (r: Patch)
    ensures r.title == Some(form.title) && r.description == Some(form.description)
    ensures r.dueDate == form.dueDate
    ensures r.completed.None? && r.user.None?
  {
    Patch(Some(form.title), Some(form.description), None, form.dueDate, None)
  }

  /** The body of the toggle's update: exactly the negated completion flag. */
  function TogglePatch(current: bool): (r: Patch)
    ensures r.completed == Some(!current)
    ensures r.title.None? && r.description.None? && r.dueDate.None? && r.user.None?
  {
    Patch(None, None, Some(!current), None, None)
  }

  /** `taskApi.toggleComplete` as one step: read the caller's task, then update it with its
      negated completion flag. A task the caller cannot read is left alone. */
  function ToggleComplete(s: Store, caller: UserId, id: TaskId): (r: Updated)
    ensures !Owns(s, id, caller) ==> r.store == s && r.task.None?
    ensures Owns(s, id, caller) ==>
      (r.store == s[id := s[id].(completed := !s[id].completed)] && r.task == Some(r.store[id]))
  {
    if Owns(s, id, caller) then UpdateTask(s, caller, id, TogglePatch(s[id].completed))
    else Updated(s, None)
  }

  /** Toggling twice with nothing in between restores the store. */
  lemma ToggleTwiceRestores(s: Store, caller: UserId, id: TaskId)
    ensures ToggleComplete(ToggleComplete(s, caller, id).store, caller, id).store == s
  {
  }
}
