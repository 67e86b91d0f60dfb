/** Row shapes of the quality-control store (the Branch, Criteria, Question,
    Inspection and InspectionAnswer tables), the parsed form fields that the
    request handlers receive, and the outcome every write operation reports. */
module Records {

  datatype Option<T> = None | Some(value: T)

  /** One object of the `branch` table; `location` is nullable. */
  datatype Branch = Branch(id: nat, name: string, location: Option<string>)

  /** One object of the `criteria` table. */
  datatype Criteria = Criteria(id: nat, name: string)

  /** One object of the `question` table. The criteria reference is not checked,
      so it is any integer the form supplied. */
  datatype Question = Question(id: nat, criteriaId: int, text: string, maxScore: int)

  /** One object of the `inspection_answer` table. Answers are kept inside the
      inspection that owns them, so the owning inspection's id is implicit. */
  datatype Answer = Answer(questionId: nat, score: int)

  /** One object of the `inspection` table with the answers it owns, in the order
      they were attached. `score` is the stored percentage. */
  datatype Inspection = Inspection(
    id: nat, branchId: int, inspector: string, score: int, notes: string,
    answers: seq<Answer>)

  /** A form field that is parsed as an integer: absent, present but not an
      integer, or an integer. */
  datatype Field = Missing | NotAnInt | Int(value: int)

  /** Why a write operation wrote nothing. Each tag stands for one flashed message
      (or, for BadRequest, the 400 answer to a missing required field, and for
      NoCentralKitchen, the exception raised while seeding). */
  datatype Failure =
    | BadRequest
    | InvalidForm
    | NameRequired
    | NameExists
    | QuestionRequired
    | MissingScores
    | InvalidScore
    | ScoreOutOfRange
    | NoCentralKitchen

  datatype Outcome = Done | Failed(why: Failure)

  /** The value of an optional text field, with the empty default that
      `request.form.get(name, "")` supplies. */
  function TextOr(field: Option<string>): (r: string)
    ensures r == [] <==> field.None? || field.value == []
    ensures field.Some? ==> r == field.value
  {
    match field
    case Some(v) => v
    case None => []
  }
}
