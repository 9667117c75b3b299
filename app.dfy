/** The state of the `App` component of GoalManagerApp/App.js: the two state
    cells `enteredGoalText` and `courseGoals`, and the four handlers that
    overwrite them. Each state update is taken as one synchronous assignment.
 */
module GoalManagerApp {
  import opened JsString
  import opened Goals

  class App {
    /** The text currently in the input box. */
    var enteredGoalText: string
    /** The goals, in the order they were added. */
    var courseGoals: seq<Goal>

    /** Every stored goal has text that is not whitespace only: add is the
        only way in, it rejects such text, and no handler edits a text. */
    ghost predicate Valid()
      reads this
    {
      forall i :: 0 <= i < |courseGoals| ==> !AllWhitespace(courseGoals[i].text)
    }

    /** Both cells start empty: `useState('')` and `useState([])`. */
    constructor ()
      ensures Valid()
      ensures enteredGoalText == "" && courseGoals == []
    {
      enteredGoalText := "";
      courseGoals := [];
    }

    /** The input box changed: the entered text becomes exactly `enteredText`. */
    method GoalInputHandler(enteredText: string)
      requires Valid()
      modifies this
      ensures Valid()
      ensures enteredGoalText == enteredText
      ensures courseGoals == old(courseGoals)
    {
      enteredGoalText := enteredText;
    }

    /** "Add Goal" was pressed. Whitespace-only text changes nothing. Otherwise
        a new incomplete goal carrying the entered text, untrimmed, goes to the
        end of the list, and the input is cleared. `newId` stands for the id
        the app draws at random; ids stay distinct only if it is fresh. */
    method AddGoalHandler(newId: string)
      requires Valid()
      modifies this
      ensures Valid()
      ensures AllWhitespace(old(enteredGoalText)) ==>
        enteredGoalText == old(enteredGoalText) && courseGoals == old(courseGoals)
      ensures !AllWhitespace(old(enteredGoalText)) ==>
        courseGoals == old(courseGoals) + [Goal(newId, old(enteredGoalText), false)] &&
        enteredGoalText == ""
      ensures UniqueIds(old(courseGoals)) && newId !in Ids(old(courseGoals)) ==>
        UniqueIds(courseGoals)
    {
      TrimEmptyIffAllWhitespace(enteredGoalText);
      if |Trim(enteredGoalText)| == 0 {
        return;
      }
      if UniqueIds(courseGoals) && newId !in Ids(courseGoals) {
        AppendFreshKeepsUnique(courseGoals, newId, enteredGoalText);
      }
      courseGoals := courseGoals + [Goal(newId, enteredGoalText, false)];
      enteredGoalText := "";
    }

    /** "Delete" was pressed on a goal: every goal with that id is dropped,
        the others keep their order, and the entered text is untouched. */
    method DeleteGoalHandler(id: string)
      requires Valid()
      modifies this
      ensures Valid()
      ensures courseGoals == Without(old(courseGoals), id)
      ensures enteredGoalText == old(enteredGoalText)
      ensures UniqueIds(old(courseGoals)) ==> UniqueIds(courseGoals)
    {
      if UniqueIds(courseGoals) {
        WithoutKeepsUnique(courseGoals, id);
      }
      courseGoals := Without(courseGoals, id);
    }

    /** "Done" was pressed on a goal: `completed` flips on every goal with
        that id, and nothing else changes. */
    method MarkAsDoneHandler(id: string)
      requires Valid()
      modifies this
      ensures Valid()
      ensures courseGoals == Toggled(old(courseGoals), id)
      ensures enteredGoalText == old(enteredGoalText)
      ensures UniqueIds(old(courseGoals)) ==> UniqueIds(courseGoals)
    {
      ToggledKeepsIds(courseGoals, id);
      courseGoals := Toggled(courseGoals, id);
    }
  }

  /** A session driven the way the screen drives the handlers, showing what a
      caller can conclude from their contracts alone. */
  method Session(idA: string, idB: string)
    requires idA != idB
  {
    var app := new App();
    app.GoalInputHandler("   ");
    app.AddGoalHandler(idA);
    assert app.courseGoals == [] && app.enteredGoalText == "   ";

    app.GoalInputHandler("A");
    assert !AllWhitespace("A") by { assert "A"[0] == 'A'; }
    app.AddGoalHandler(idA);
    assert app.courseGoals == [Goal(idA, "A", false)] && app.enteredGoalText == "";
    app.GoalInputHandler("B");
    assert !AllWhitespace("B") by { assert "B"[0] == 'B'; }
    app.AddGoalHandler(idB);
    assert app.courseGoals == [Goal(idA, "A", false), Goal(idB, "B", false)];

    app.MarkAsDoneHandler(idA);
    assert app.courseGoals[0] == Goal(idA, "A", true);
    assert app.courseGoals[1] == Goal(idB, "B", false);
    app.MarkAsDoneHandler(idA);
    assert app.courseGoals[0] == Goal(idA, "A", false);

    app.DeleteGoalHandler(idA);
    assert app.courseGoals == [Goal(idB, "B", false)];
    app.DeleteGoalHandler(idA);
    assert app.courseGoals == [Goal(idB, "B", false)];
  }
}
