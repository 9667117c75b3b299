/** The goal records of GoalManagerApp/App.js and the two list transformations
    its handlers apply: the `filter` of delete and the `map` of mark-as-done.
    Adding is a plain append and needs no function of its own.
 */
module Goals {

  /** One entry of `courseGoals`: `{id, text, completed}`. */
  datatype Goal = Goal(id: string, text: string, completed: bool)

  /** The ids present in a goal list. */
  function Ids(goals: seq<Goal>): set<string> {
    set i | 0 <= i < |goals| :: goals[i].id
  }

  /** No two goals of the list share an id. The app does not guarantee this:
      it draws ids at random. */
  ghost predicate UniqueIds(goals: seq<Goal>) {
    forall i, j :: 0 <= i < j < |goals| ==> goals[i].id != goals[j].id
  }

  // ---------------------------------------------------------------------------
  // Delete: keep the goals whose id differs
  // ---------------------------------------------------------------------------

  /** The goals whose id differs from `id`, in their original order. */
  function Without(goals: seq<Goal>, id: string): (r: seq<Goal>)
    ensures |r| <= |goals|
    ensures forall g :: g in r <==> g in goals && g.id != id
    ensures id !in Ids(r)
  {
    if goals == [] then []
    else if goals[0].id != id then [goals[0]] + Without(goals[1..], id)
    else Without(goals[1..], id)
  }

  /** Filtering distributes over concatenation, so the kept goals stay in
      their original relative order. */
  lemma {:induction false} WithoutConcat(a: seq<Goal>, b: seq<Goal>, id: string)
    ensures Without(a + b, id) == Without(a, id) + Without(b, id)
  {
    if a == [] {
      assert a + b == b;
    } else {
      assert (a + b)[1..] == a[1..] + b;
      WithoutConcat(a[1..], b, id);
    }
  }

  /** A one-goal list is kept exactly when the goal's id differs. */
  lemma WithoutSingle(g: Goal, id: string)
    ensures Without([g], id) == if g.id != id then [g] else []
  {
    assert [g][1..] == [];
  }

  /** Deleting an id that no goal has leaves the list unchanged. */
  lemma {:induction false} WithoutAbsent(goals: seq<Goal>, id: string)
    requires id !in Ids(goals)
    ensures Without(goals, id) == goals
  {
    if goals != [] {
      assert Ids(goals[1..]) <= Ids(goals) by {
        forall x | x in Ids(goals[1..]) ensures x in Ids(goals) {
          var k :| 0 <= k < |goals[1..]| && goals[1..][k].id == x;
          assert goals[k + 1].id == x;
        }
      }
      WithoutAbsent(goals[1..], id);
    }
  }

  /** Deleting the same id twice gives the same list as deleting it once. */
  lemma WithoutIdempotent(goals: seq<Goal>, id: string)
    ensures Without(Without(goals, id), id) == Without(goals, id)
  {
    WithoutAbsent(Without(goals, id), id);
  }

  /** Deleting the id of a goal just added under a fresh id undoes the add. */
  lemma WithoutUndoesAdd(goals: seq<Goal>, id: string, text: string)
    requires id !in Ids(goals)
    ensures Without(goals + [Goal(id, text, false)], id) == goals
  {
    WithoutConcat(goals, [Goal(id, text, false)], id);
    WithoutAbsent(goals, id);
    WithoutSingle(Goal(id, text, false), id);
  }

  /** Deleting keeps ids distinct. */
  lemma {:induction false} WithoutKeepsUnique(goals: seq<Goal>, id: string)
    requires UniqueIds(goals)
    ensures UniqueIds(Without(goals, id))
  {
    if goals != [] {
      var rest := Without(goals[1..], id);
      WithoutKeepsUnique(goals[1..], id);
      if goals[0].id != id {
        forall j | 0 <= j < |rest| ensures rest[j].id != goals[0].id {
          assert rest[j] in goals[1..];
          var k :| 0 <= k < |goals[1..]| && goals[1..][k] == rest[j];
          assert goals[k + 1] == rest[j];
        }
        var r := [goals[0]] + rest;
        forall i, j | 0 <= i < j < |r| ensures r[i].id != r[j].id {
          if i > 0 {
            assert r[i] == rest[i - 1] && r[j] == rest[j - 1];
          } else {
            assert r[j] == rest[j - 1];
          }
        }
      }
    }
  }

  /** With distinct ids, delete removes one goal when the id is present and
      none otherwise. */
  lemma {:induction false} WithoutLengthUnique(goals: seq<Goal>, id: string)
    requires UniqueIds(goals)
    ensures |Without(goals, id)| == if id in Ids(goals) then |goals| - 1 else |goals|
  {
    if goals != [] {
      assert Ids(goals) == {goals[0].id} + Ids(goals[1..]) by {
        forall x | x in Ids(goals) ensures x in {goals[0].id} + Ids(goals[1..]) {
          var k :| 0 <= k < |goals| && goals[k].id == x;
          if k > 0 {
            assert goals[1..][k - 1].id == x;
          }
        }
        forall x | x in Ids(goals[1..]) ensures x in Ids(goals) {
          var k :| 0 <= k < |goals[1..]| && goals[1..][k].id == x;
          assert goals[k + 1].id == x;
        }
        assert goals[0].id in Ids(goals);
      }
      if goals[0].id == id {
        WithoutAbsent(goals[1..], id);
      } else {
        WithoutLengthUnique(goals[1..], id);
      }
    }
  }

  // ---------------------------------------------------------------------------
  // Mark as done: flip `completed` on the goals whose id matches
  // ---------------------------------------------------------------------------

  /** The list with `completed` flipped on every goal whose id is `id`. Every
      goal keeps its position, id and text; only the matching ones change. */
  function Toggled(goals: seq<Goal>, id: string): (r: seq<Goal>)
    ensures |r| == |goals|
    ensures forall i :: 0 <= i < |goals| ==>
      r[i].id == goals[i].id && r[i].text == goals[i].text
    ensures forall i :: 0 <= i < |goals| ==>
      r[i].completed == (goals[i].completed != (goals[i].id == id))
  {
    if goals == [] then []
    else
      var g := goals[0];
      [if g.id == id then g.(completed := !g.completed) else g] + Toggled(goals[1..], id)
  }

  /** Toggling the same id twice restores the original list. It follows
      position by position from the contract of Toggled. */
  lemma ToggledTwice(goals: seq<Goal>, id: string)
    ensures Toggled(Toggled(goals, id), id) == goals
  {
  }

  /** Toggling an id that no goal has leaves the list unchanged. */
  lemma ToggledAbsent(goals: seq<Goal>, id: string)
    requires id !in Ids(goals)
    ensures Toggled(goals, id) == goals
  {
    var r := Toggled(goals, id);
    forall i | 0 <= i < |goals| ensures r[i] == goals[i] {
      assert goals[i].id in Ids(goals);
    }
  }

  /** Toggling changes no id, so it keeps the set of ids and their distinctness. */
  lemma ToggledKeepsIds(goals: seq<Goal>, id: string)
    ensures Ids(Toggled(goals, id)) == Ids(goals)
    ensures UniqueIds(goals) ==> UniqueIds(Toggled(goals, id))
  {
    var r := Toggled(goals, id);
    forall x | x in Ids(goals) ensures x in Ids(r) {
      var k :| 0 <= k < |goals| && goals[k].id == x;
      assert r[k].id == x;
    }
  }

  // ---------------------------------------------------------------------------
  // Add: append one incomplete goal
  // ---------------------------------------------------------------------------

  /** Appending a goal under an id no goal has keeps ids distinct. */
  lemma AppendFreshKeepsUnique(goals: seq<Goal>, id: string, text: string)
    requires UniqueIds(goals) && id !in Ids(goals)
    ensures UniqueIds(goals + [Goal(id, text, false)])
  {
    var r := goals + [Goal(id, text, false)];
    forall i, j | 0 <= i < j < |r| ensures r[i].id != r[j].id {
      if j == |goals| {
        assert r[i].id == goals[i].id && goals[i].id in Ids(goals);
      }
    }
  }
}
