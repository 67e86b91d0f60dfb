# Quality-control inspection store, modelled in Dafny

This project models the core of a small restaurant quality-control web app
(`qc_app.py`). Under its Flask routes and HTML templates sits a SQLite
database, reached through SQLAlchemy. It has five tables: branches, criteria,
questions, inspections and inspection answers. Every write commits to the
database file, so the tables outlast each request and each run of the seeding
routine. The model keeps these tables as sequences in the fields of one
object, which last from one call to the next. Four guarded write operations
and one seeding routine change the tables:

- **Inspection submission** (`add_inspection`). It walks the question table in
  ascending id order. Each question needs a `q_<id>` field that parses as an
  integer in `[0, max_score]`. The walk sums the scores and the maxima and
  builds one answer per question. The stored percentage is derived from the two
  sums. The first failing question rejects the whole submission, and nothing is
  written.
- **Unique-name insertion** for branches (`add_branch`) and criteria
  (`add_criteria`). The name is stripped. An empty name is rejected, and so is a
  name already in the table. Otherwise one row is appended.
- **Question creation** (`add_question`). Empty text and a maximum score below 1
  are rejected.
- **Seeding** (`setup_database`). It fills the branch, inspection and criteria
  tables, each only when it is empty.

Layout:

- `Records.dfy`: the row shapes, the parsed form fields and the outcome tags.
  A field parsed with `int(...)` is `Missing | NotAnInt | Int(n)`. A plain text
  field is an `Option<string>`, where `None` is a field absent from the form.
- `Text.dfy`: Python's `str.strip()`, using the exact character set of
  `str.isspace()`.
- `Scoring.dfy`: the per-question check, the two sums, the submission loop
  `TallyAnswers` (a `while` loop with invariants) and the percentage.
- `Store.dfy`: `Tables`, a value snapshot of the whole store, and its
  invariant `Consistent`. It also holds the name lookups, the seeding
  specification `Seed`, and the class `Store`, whose fields are the tables and
  id counters and whose methods are the handlers.
- `Scenarios.dfy`: two concrete runs on a fresh store.

The store invariant `Consistent` says:

- ids ascend in each table and stay below that table's next id;
- branch names are unique and non-empty, and so are criteria names;
- every stored text is stripped: branch names and locations, criteria
  names, question texts, and inspectors and notes. A stored branch location
  is never empty;
- every question has non-empty text and a maximum score of at least 1;
- every inspection's percentage lies in `[0, 100]`;
- the answers of every inspection match the first questions of the table one
  for one, each with a score within that question's range. Questions are only
  ever appended, so the questions an inspection was scored against stay a
  prefix of the table.

Every write method requires and ensures `Valid()` (that is, `Consistent` of
the snapshot). Each one states its whole new state as an update of the old
snapshot. A rejection leaves the snapshot unchanged.

Seeding when branches exist but none is named "Central Kitchen" and there are
no inspections: the source dereferences the missing branch and raises. The
model returns `Failed(NoCentralKitchen)` at that point. The branch step before
it has already been committed, and the criteria step is not reached.

The code aggregates only a flat sum over all questions. It has no
per-category or Pass/Fail roll-up. A criteria row can exist without questions.

## Model

| member | source | states |
|---|---|---|
| `Text.Strip` | qc_app.py:496 | `str.strip()`: the result neither starts nor ends with whitespace, it is the infix of the input after the leading whitespace, everything outside it is whitespace, and it is empty exactly when the input is all whitespace |
| `Text.StripKeeps` | qc_app.py:463 | text that neither starts nor ends with whitespace is its own strip |
| `Text.StripPadded` | qc_app.py:480 | whitespace added around such text is exactly what stripping removes |
| `Text.StripIdempotent` | qc_app.py:411 | stripping twice is stripping once |
| `Text.TrimmedIsOwnStrip` | qc_app.py:415 | a string is its own strip exactly when it neither starts nor ends with whitespace |
| `Text.IsSpace` | qc_app.py:496 | the `str.isspace()` code points: blank, tab, line feed and carriage return are whitespace, and no printable ASCII character other than the blank is |
| `Records.TextOr` | qc_app.py:415 | `request.form.get(name, "")`: the empty default for an absent field, otherwise the submitted text |
| `Scoring.Verdict` | qc_app.py:423-433 | the per-question check: it passes exactly when the field is an integer in `[0, max_score]`; an absent field gives "Missing question scores", one that is not an integer gives "Invalid score provided", and an integer out of range gives "Score out of range" |
| `Scoring.SumScores` | qc_app.py:434 | the running `total`: the sum of the answers' scores, never negative when no score is |
| `Scoring.SumMaxScores` | qc_app.py:435 | the running `max_total`: the sum of the questions' maxima, never negative when no maximum is |
| `Scoring.TallyAnswers` | qc_app.py:417-436 | the loop accepts exactly when every question's field is present, an integer and in `[0, max_score]`; a rejection carries the failure of the first failing question in id order; on acceptance there is one answer per question in order, carrying the submitted score within range, `total` is the sum of the scores, `max_total` the sum of the maxima, and `0 <= total <= max_total` |
| `Scoring.Percentage` | qc_app.py:438 | 0 when `max_total` is 0 (no division by zero); in `[0, 100]` when `0 <= total <= max_total`; then, for a non-zero `max_total`, 100 exactly when `total == max_total` |
| `Scoring.FullMarks` | qc_app.py:431-435 | for answers matching their questions one for one, `0 <= sum of scores <= sum of maxima`, with equality exactly when every answer has its question's maximum |
| `Scoring.MaxSumAtLeastCount` | qc_app.py:485 | when every question is worth at least 1 point, the maximum sum is at least the number of questions |
| `Scoring.SubmissionPercentage` | qc_app.py:434-438 | for an accepted submission against a consistent question table, the percentage is 0 when there are no questions, and 100 exactly when there are questions and every score equals its maximum |
| `Store.FindBranch` | qc_app.py:501 | the lookup finds nothing exactly when no branch has the name; otherwise it returns the first branch in the table that has it |
| `Store.FindCriteria` | qc_app.py:467 | the same for the criteria table |
| `Store.BranchAppended` | qc_app.py:498-505 | appending a branch with the next id, a non-empty name and a name not yet present keeps ids ascending and names unique |
| `Store.CriteriaAppended` | qc_app.py:464-470 | the same for the criteria table |
| `Store.QuestionAppended` | qc_app.py:485-488 | appending a question with the next id, non-empty text and `max_score >= 1` keeps the question table well formed |
| `Store.QuestionsExtended` | qc_app.py:488 | appending questions keeps every stored inspection's answers matched to the table |
| `Store.AnswersMatchExtended` | qc_app.py:436 | answers that match a question table still match it after more questions are appended |
| `Store.InspectionAppended` | qc_app.py:439-444 | appending an inspection with the next id, a percentage in `[0, 100]` and matched answers keeps the inspection table well formed |
| `Store.StoredLocation` | qc_app.py:497-505 | `location or None`: null exactly when the field is absent or all whitespace, otherwise the stripped, non-empty location |
| `Store.SeedBranches` | qc_app.py:102-109 | the branch block as a function of the tables: it changes only the branch table and its counter, leaves a non-empty branch table alone, and fills an empty one with three branches |
| `Store.SeededBranches` | qc_app.py:103-107 | the three seeded branches with consecutive ids and a location each, "Central Kitchen" first |
| `Store.SeedInspection` | qc_app.py:112-122 | the inspection block as a function of the tables: it changes only the inspection table and its counter; it does nothing when inspections exist; it fails exactly when there are none and no branch is named "Central Kitchen", and then changes nothing; otherwise it stores one inspection of the first branch of that name |
| `Store.SeededInspection` | qc_app.py:115-120 | the sample inspection: the given id and branch id, no answers, and a percentage within `[0, 100]` |
| `Store.SeedCriteria` | qc_app.py:125-136 | the criteria block as a function of the tables: it changes only the criteria and question tables and their counters, leaves a non-empty criteria table alone, and otherwise adds two criteria and appends three questions after the existing ones |
| `Store.SeededCriteria` | qc_app.py:126-131 | the two seeded criteria, with consecutive ids |
| `Store.SeededQuestions` | qc_app.py:127-134 | the three seeded questions with consecutive ids, each worth at least one point and attached to one of the two seeded criteria |
| `Store.Seed` | qc_app.py:96-136 | `setup_database` as a function of the tables: the outcome is success or the missing "Central Kitchen" failure, and it succeeds whenever the branch table starts empty or inspections exist |
| `Store.SeededTextsTrimmed` | qc_app.py:104-133 | every seeded name, location, question text, inspector and notes literal is already stripped |
| `Store.SeededInspectionOk` | qc_app.py:114-121 | the sample inspection alone forms a well-formed inspection table |
| `Store.SeedFillsOnlyEmptyTables` | qc_app.py:102-136 | seeding leaves every non-empty table as it was; an empty branch table gets exactly three branches, "Central Kitchen" among them; an empty inspection table gets one inspection when seeding succeeds; an empty criteria table gets two criteria and three questions; a failed run changes nothing |
| `Store.SeedIdempotent` | qc_app.py:96-97 | running the seeding on its own result returns the same tables and the same outcome: running it twice is the same as running it once |
| `Store.SeededBranchesOk` | qc_app.py:103-107 | the three seeded branches have ascending ids and distinct non-empty names |
| `Store.SeededCriteriaOk` | qc_app.py:126-134 | the two seeded criteria have ascending ids and distinct names; the three seeded questions appended to a well-formed table keep it well formed |
| `Store.Store.constructor` | qc_app.py:99 | a new store has empty tables whose ids start at 1, and it is consistent |
| `Store.Store.AddBranch` | qc_app.py:494-508 | a missing name field fails as a bad request; an empty stripped name fails with `NameRequired`; a stripped name already present fails with `NameExists`; exactly otherwise one branch with the next id, the stripped name and the stripped location (null when empty) is appended; a failure changes nothing, a success changes only the branch table and its counter, and consistency is kept |
| `Store.Store.AddCriteria` | qc_app.py:461-473 | the same guards and single append for the criteria table |
| `Store.Store.AddQuestion` | qc_app.py:476-491 | a missing or non-integer criteria id or maximum, or a missing text, fails as an invalid form; empty stripped text or `max_score <= 0` fails with `QuestionRequired`; exactly otherwise one question is appended with the next id, the unchecked criteria id, the stripped text and the maximum; a failure changes nothing, so every stored question keeps `max_score >= 1` |
| `Store.Store.AddInspection` | qc_app.py:407-446 | a missing or non-integer branch id, or a missing inspector, fails as an invalid form; otherwise the submission succeeds exactly when every question's field passes, a failure reports the first failing question's reason and changes nothing, and a success appends exactly one inspection (next id, the given branch id, stripped inspector, stripped notes with default empty, one submitted answer per question in id order, and the percentage of the score sum over the maximum sum) with nothing else changed |
| `Store.Store.SetupDatabase` | qc_app.py:96-136 | the new tables and the outcome are exactly `Seed` of the old tables, and consistency is kept |
| `Store.Store.SeedBranchTable` | qc_app.py:102-109 | the branch block: the three branches are added only when the branch table is empty |
| `Store.Store.SeedInspectionTable` | qc_app.py:112-122 | the inspection block: when the inspection table is empty, one inspection of the "Central Kitchen" branch is added with inspector "System", score 92 and no answers; when that branch is missing, the block fails and adds nothing |
| `Store.Store.SeedCriteriaTable` | qc_app.py:125-136 | the criteria block: "Hygiene" and "Safety" and their three questions (10, 10 and 5 points) are added only when the criteria table is empty |
| `Scenarios.SeededStore` | qc_app.py:96-109 | seeding a new store leaves it consistent, with three branches, one of them "Central Kitchen" |
| `Scenarios.DuplicateSeededBranch` | qc_app.py:501-503 | on a fresh seeded store, submitting " Central Kitchen " as a branch name is rejected as a duplicate, and three branches remain |
| `Scenarios.EmptyChecklistScoresZero` | qc_app.py:438 | on a store without questions, a submission is accepted with no answers and a stored percentage of 0 |

## Left out

- Flask routing, `redirect`, `flash` and the HTML templates (qc_app.py:142-404, 449-458) are presentation only. Each flashed message becomes one `Failure` tag; its text is not modelled.
- The `/`, `/branches` and `/criteria` listing pages (their ordering by name or by time, and the 50-row limit) are read-only views and are not modelled. Neither is `/health`.
- SQLAlchemy sessions, commits, ORM relationships and `cascade="all, delete-orphan"` are not modelled. No handler deletes anything, so the cascades are never exercised. The model keeps the tables as in-memory sequences, and the SQLite file behind them is not modelled. Answers are nested in their inspection, so the answer table's own row id and `inspection_id` column are implicit.
- The database's own `unique=True` constraint is not modelled separately. The handlers check for duplicates before inserting, and the model proves that this check keeps names unique.
- `int(...)` parsing of form strings (signs, surrounding blanks, underscores) is abstracted as an already-parsed `Field`. A `KeyError` for a required field is abstracted as `Missing` or `None`.
- For `add_branch` and `add_criteria`, a missing `name` field raises an uncaught `KeyError`. Flask answers that with a 400 error. The model reports it as `Failed(BadRequest)` and writes nothing.
- Scoring.Percentage: computed as exact integer floor division `100 * total / max_total`. The source computes `int((total / max_total) * 100)` in double-precision floating point. Its result can be one lower than the model's (29 out of 100 gives 28). For large `max_total` it can also be one higher than the floor. For example, with `max_total = 140737488355339` (below 2^48) and `total = 83035118129650`, `100 * total` is `59 * max_total - 1`. The model then gives 58, while the ratio rounds to the double 0.59 and the source stores 59. Separately, from `max_total = 2^54` on, the ratio itself can round to 1.0, and the source then stores 100 while `total < max_total`. For the float expression, the zero case and the `[0, 100]` bounds hold at every size. "100 exactly when `total == max_total`" holds while `max_total < 2^54`. The model bounds neither `max_total` nor the `max_score` values it sums. `add_question` accepts any positive integer, up to SQLite's limit of 2^63 − 1.
- `created_at` timestamps (`datetime.utcnow`) are not modelled, because they need a clock.
- Configuration, the secret key, the database path and the development server entry point are not modelled.
- `db.create_all()` is not modelled: the tables always exist.
- Column length limits (`String(120)`, `String(200)`) are not modelled; SQLite does not enforce them anyway. Neither is the 64-bit range of SQLite integers: ids and scores are unbounded.
- The foreign keys `branch_id` in `add_inspection` and `criteria_id` in `add_question` are not checked by the source, and the model does not check them either. The inspector name may be empty, as in the source.
- New ids come from per-table counters that start at 1. The source has no deletes, so this matches SQLite's rowid assignment.
- Concurrent requests are not modelled: each request runs on its own.
