/** The task records of the task manager and the list computations its
    handlers perform: the map behind an update, the map behind a completion
    toggle and the filter behind a delete. */
module Tasks {

  datatype Option<T> = None | Some(value: T)

  /** One task. Ids are JavaScript numbers in the source: 1, 2 and 3 for the
      demo tasks and millisecond timestamps for new ones. Priority is the
      string chosen in the form ("low", "medium" or "high"). */
  datatype Task = Task(id: int, title: string, description: string, priority: string, completed: bool)

  /** The form draft shared by the add and edit flows. */
  datatype Draft = Draft(title: string, description: string, priority: string)

  /** The draft the form is reset to: empty fields, priority "medium". */
  const EmptyDraft := Draft("", "", "medium")

  /** The three demo tasks loaded on login. */
  const InitialTasks: seq<Task> := [
    Task(1, "Complete QA Challenge", "Implement Playwright and Postman tests", "high", false),
    Task(2, "Review Test Cases", "Go through all test scenarios", "medium", true),
    Task(3, "Update Documentation", "Write comprehensive test plan", "low", false)
  ]

  /** The ids present in a list. */
  function Ids(s: seq<Task>): set<int> {
    set t | t in s :: t.id
  }

  /** No two positions of the list hold the same id. */
  predicate UniqueIds(s: seq<Task>) {
    forall i, j :: 0 <= i < j < |s| ==> s[i].id != s[j].id
  }

  /** The demo list has exactly the distinct ids 1, 2 and 3. */
  lemma InitialTasksUnique()
    ensures UniqueIds(InitialTasks) && Ids(InitialTasks) == {1, 2, 3}
    ensures forall t :: t in InitialTasks ==> t.title != [] && t.priority in {"low", "medium", "high"}
  {
    assert InitialTasks[0].id == 1 && InitialTasks[1].id == 2 && InitialTasks[2].id == 3;
  }

  /** Appending a task whose id is new keeps the ids unique and adds its id. */
  lemma {:induction false} AppendKeepsUnique(s: seq<Task>, t: Task)
    requires UniqueIds(s) && t.id !in Ids(s)
    ensures UniqueIds(s + [t]) && Ids(s + [t]) == Ids(s) + {t.id}
  {
    var r := s + [t];
    forall i, j | 0 <= i < j < |r| ensures r[i].id != r[j].id {
      if j == |s| {
        assert r[i] in s;
      }
    }
  }

  // ----- update: every task carrying the edit target's id takes the draft's fields

  /** A task with the draft's title, description and priority written over its own. */
  function Revise(t: Task, d: Draft): (r: Task)
    ensures r.id == t.id && r.completed == t.completed
    ensures r.title == d.title && r.description == d.description && r.priority == d.priority
  {
    t.(title := d.title, description := d.description, priority := d.priority)
  }

  /** Every task whose id is the edit target is revised from the draft; with
      no edit target nothing matches. Length, order, ids and completion flags
      are kept, and every other task is left as it was. */
  function UpdateWhere(s: seq<Task>, target: Option<int>, d: Draft): (r: seq<Task>)
    ensures |r| == |s|
    ensures forall i :: 0 <= i < |s| ==> r[i].id == s[i].id && r[i].completed == s[i].completed
    ensures forall i :: 0 <= i < |s| && target == Some(s[i].id) ==>
      r[i].title == d.title && r[i].description == d.description && r[i].priority == d.priority
    ensures forall i :: 0 <= i < |s| && target != Some(s[i].id) ==> r[i] == s[i]
  {
    if s == [] then []
    else [if target == Some(s[0].id) then Revise(s[0], d) else s[0]] + UpdateWhere(s[1..], target, d)
  }

  /** Updating with an edit target that no task carries leaves the list as it is. */
  lemma UpdateAbsentIsNoop(s: seq<Task>, target: Option<int>, d: Draft)
    requires target == None || target.value !in Ids(s)
    ensures UpdateWhere(s, target, d) == s
  {
    var r := UpdateWhere(s, target, d);
    forall i | 0 <= i < |s| ensures r[i] == s[i] {
      assert s[i] in s;
    }
  }

  /** An update keeps the set of ids. */
  lemma UpdateKeepsIds(s: seq<Task>, target: Option<int>, d: Draft)
    ensures Ids(UpdateWhere(s, target, d)) == Ids(s)
  {
    var r := UpdateWhere(s, target, d);
    forall x | x in Ids(r) ensures x in Ids(s) {
      var i :| 0 <= i < |r| && r[i].id == x;
      assert s[i] in s;
    }
    forall x | x in Ids(s) ensures x in Ids(r) {
      var i :| 0 <= i < |s| && s[i].id == x;
      assert r[i] in r;
    }
  }

  /** An update keeps ids unique. */
  lemma UpdateKeepsUnique(s: seq<Task>, target: Option<int>, d: Draft)
    requires UniqueIds(s)
    ensures UniqueIds(UpdateWhere(s, target, d))
  {
  }

  /** With unique ids, an update revises at most one task: the one at the
      position holding the target id. */
  lemma UpdateChangesOnlyTarget(s: seq<Task>, k: nat, d: Draft)
    requires UniqueIds(s) && k < |s|
    ensures var r := UpdateWhere(s, Some(s[k].id), d);
      r[k] == Revise(s[k], d) && forall i :: 0 <= i < |s| && i != k ==> r[i] == s[i]
  {
  }

  // ----- toggle: every task carrying the id has its completion flag flipped

  /** Flips the completion flag of every task with the given id; every other
      field, every other task, the length and the order are kept. */
  function ToggleWhere(s: seq<Task>, id: int): (r: seq<Task>)
    ensures |r| == |s|
    ensures forall i :: 0 <= i < |s| && s[i].id == id ==> r[i] == s[i].(completed := !s[i].completed)
    ensures forall i :: 0 <= i < |s| && s[i].id != id ==> r[i] == s[i]
  {
    if s == [] then []
    else [if s[0].id == id then s[0].(completed := !s[0].completed) else s[0]] + ToggleWhere(s[1..], id)
  }

  /** Toggling the same id twice gives back the original list. */
  lemma {:induction false} ToggleTwice(s: seq<Task>, id: int)
    ensures ToggleWhere(ToggleWhere(s, id), id) == s
  {
    var r := ToggleWhere(ToggleWhere(s, id), id);
    assert forall i :: 0 <= i < |s| ==> r[i] == s[i];
  }

  /** Toggling an id no task carries leaves the list as it is. */
  lemma ToggleAbsentIsNoop(s: seq<Task>, id: int)
    requires id !in Ids(s)
    ensures ToggleWhere(s, id) == s
  {
    var r := ToggleWhere(s, id);
    forall i | 0 <= i < |s| ensures r[i] == s[i] {
      assert s[i] in s;
    }
  }

  /** A toggle keeps the set of ids. */
  lemma ToggleKeepsIds(s: seq<Task>, id: int)
    ensures Ids(ToggleWhere(s, id)) == Ids(s)
  {
    var r := ToggleWhere(s, id);
    forall x | x in Ids(r) ensures x in Ids(s) {
      var i :| 0 <= i < |r| && r[i].id == x;
      assert s[i] in s;
    }
    forall x | x in Ids(s) ensures x in Ids(r) {
      var i :| 0 <= i < |s| && s[i].id == x;
      assert r[i] in r;
    }
  }

  /** A toggle keeps ids unique. */
  lemma ToggleKeepsUnique(s: seq<Task>, id: int)
    requires UniqueIds(s)
    ensures UniqueIds(ToggleWhere(s, id))
  {
  }

  // ----- delete: the tasks carrying the id are dropped, the rest kept in order

  /** The tasks whose id differs from the given one, in their original order. */
  function RemoveId(s: seq<Task>, id: int): (r: seq<Task>)
    ensures |r| <= |s|
    ensures forall t :: t in r <==> t in s && t.id != id
  {
    if s == [] then []
    else (if s[0].id == id then [] else [s[0]]) + RemoveId(s[1..], id)
  }

  /** a can be obtained from b by deleting elements, so a keeps b's order. */
  predicate IsSubsequence(a: seq<Task>, b: seq<Task>)
    decreases |b|
  {
    if a == [] then true
    else if b == [] then false
    else (a[0] == b[0] && IsSubsequence(a[1..], b[1..])) || IsSubsequence(a, b[1..])
  }

  /** A delete keeps the remaining tasks in their relative order. */
  lemma {:induction false} RemoveIsSubsequence(s: seq<Task>, id: int)
    ensures IsSubsequence(RemoveId(s, id), s)
  {
    if s != [] {
      RemoveIsSubsequence(s[1..], id);
      var rest := RemoveId(s[1..], id);
      if s[0].id == id {
        assert RemoveId(s, id) == rest;
        SubsequenceDropFront(rest, s);
      } else {
        assert RemoveId(s, id) == [s[0]] + rest;
        assert ([s[0]] + rest)[1..] == rest;
      }
    }
  }

  /** A subsequence of the tail of b is a subsequence of b. */
  lemma {:induction false} SubsequenceDropFront(a: seq<Task>, b: seq<Task>)
    requires b != [] && IsSubsequence(a, b[1..])
    ensures IsSubsequence(a, b)
  {
  }

  /** A delete distributes over concatenation, which is another way of
      saying that it keeps the relative order of the tasks it keeps. */
  lemma {:induction false} RemoveConcat(a: seq<Task>, b: seq<Task>, id: int)
    ensures RemoveId(a + b, id) == RemoveId(a, id) + RemoveId(b, id)
  {
    if a == [] {
      assert a + b == b;
    } else {
      assert (a + b)[0] == a[0];
      assert (a + b)[1..] == a[1..] + b;
      RemoveConcat(a[1..], b, id);
    }
  }

  /** Deleting an id no task carries leaves the list as it is. */
  lemma {:induction false} RemoveAbsentIsNoop(s: seq<Task>, id: int)
    requires id !in Ids(s)
    ensures RemoveId(s, id) == s
  {
    if s != [] {
      assert s[0] in s;
      assert Ids(s[1..]) <= Ids(s) by {
        forall x | x in Ids(s[1..]) ensures x in Ids(s) {
          var t :| t in s[1..] && t.id == x;
          assert t in s;
        }
      }
      RemoveAbsentIsNoop(s[1..], id);
      assert s == [s[0]] + s[1..];
    }
  }

  /** After a delete the id is gone and every other id remains. */
  lemma RemoveKeepsIds(s: seq<Task>, id: int)
    ensures Ids(RemoveId(s, id)) == Ids(s) - {id}
  {
    var r := RemoveId(s, id);
    forall x | x in Ids(s) - {id} ensures x in Ids(r) {
      var t :| t in s && t.id == x;
      assert t in r;
    }
  }

  /** The tail of a list with unique ids has unique ids and lacks the head's id. */
  lemma TailUnique(s: seq<Task>)
    requires UniqueIds(s) && s != []
    ensures UniqueIds(s[1..]) && s[0].id !in Ids(s[1..])
  {
    var tail := s[1..];
    forall i, j | 0 <= i < j < |tail| ensures tail[i].id != tail[j].id {
      assert tail[i] == s[i + 1] && tail[j] == s[j + 1];
    }
    forall t | t in tail ensures t.id != s[0].id {
      var k :| 0 <= k < |tail| && tail[k] == t;
      assert s[k + 1] == t;
    }
  }

  /** Putting a task with a new id in front of a list with unique ids keeps them unique. */
  lemma PrependKeepsUnique(t: Task, s: seq<Task>)
    requires UniqueIds(s) && t.id !in Ids(s)
    ensures UniqueIds([t] + s)
  {
    var r := [t] + s;
    forall i, j | 0 <= i < j < |r| ensures r[i].id != r[j].id {
      if i == 0 {
        assert r[j] in s;
      } else {
        assert r[i] == s[i - 1] && r[j] == s[j - 1];
      }
    }
  }

  /** A delete keeps ids unique. */
  lemma {:induction false} RemoveKeepsUnique(s: seq<Task>, id: int)
    requires UniqueIds(s)
    ensures UniqueIds(RemoveId(s, id))
  {
    if s != [] {
      TailUnique(s);
      RemoveKeepsUnique(s[1..], id);
      if s[0].id != id {
        RemoveKeepsIds(s[1..], id);
        PrependKeepsUnique(s[0], RemoveId(s[1..], id));
      }
    }
  }

  /** With unique ids, deleting an id that is present removes exactly one
      task (a confirmed delete shortens the list by one). */
  lemma {:induction false} RemovePresentShrinksByOne(s: seq<Task>, id: int)
    requires UniqueIds(s) && id in Ids(s)
    ensures |RemoveId(s, id)| == |s| - 1
  {
    TailUnique(s);
    if s[0].id == id {
      RemoveAbsentIsNoop(s[1..], id);
    } else {
      var t :| t in s && t.id == id;
      assert t in s[1..];
      RemovePresentShrinksByOne(s[1..], id);
    }
  }
}
