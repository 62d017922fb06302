# Exam grader — a Dafny model

This project models the grading pipeline of a small exam-marking script. The
script reads a class file of comma-separated answer sheets, one student per
line. It rejects malformed lines, scores each valid line against a 25-answer
key (4 points per correct answer), and tallies skipped and wrong answers per
question. It then reports the number of valid and invalid lines, the
statistics of the scores (high scores above 80, mean, highest, lowest, range,
median) and the questions ranked by how often they were skipped or answered
wrongly. It also reads an answer key from a header line and lists the student
identifiers it saves beside the scores.

Files and modules:

- `strings.dfy` (`Strings`): the Python string operations the script uses.
  These are `strip()`, `split(',')`, `','.join`, `startswith` and `isdigit`.
  The module proves the split/join round trips and shows that `strip` ignores
  added whitespace.
- `sorting.dfy` (`Sorting`): `sorted`, as a stable insertion sort. The module
  proves the result is a permutation of the input, sorted by key, and unique
  for integers.
- `validator.dfy` (`Validator`): both forms of `validation`, the conjunction
  and the early-return chain, and the proof that they agree.
- `header_key.dfy` (`HeaderKey`): `get_answer_key`.
- `line_counter.dfy` (`LineCounter`): `analyze_data` from both files, as
  counting loops.
- `scorer.dfy` (`Scorer`): what the grading loop computes per line and per
  question, written as functions. The loop is proved against them.
- `aggregator.dfy` (`Aggregator`): `max`, `min`, the high-score count, the
  exact mean, the median, the statistics record and the two rankings.
- `grader.dfy` (`Grader`): `grade_exam` as imperative loops. The inner loop
  over the 25 answers is `MarkAnswers`, the loop over the lines is
  `ScoreLines`, and `GradeExam` runs both and then builds the report. The
  module also holds the list of student identifiers (line 186 of the
  grading script).
- `wrappers.dfy` (`Wrappers`): `Option`.

The answer key is a parameter of length 25 (the script passes a global
list). Python's dictionaries are `map<int, nat>`. Lines and answers are
strings. Digits are ASCII `0`..`9`. Whitespace is what Python's
`str.isspace` accepts in the Latin-1 range.

With no valid line, `max(scores)` (line 109 of the grading script) raises
`ValueError`. `Summarize` requires a non-empty list, and `GradeExam` returns
no report (`None`) exactly when no line is valid. The code compares whole
answer fields with the key, so answers 1 to 24 written as `"B "` (a letter
followed by a space) are wrong. The 25th answer ends the line, so
`line.strip()` (lines 27 and 70) removes its trailing whitespace and `"B "`
there reads as `"B"`. The model does the same.

## Model

| member | source | states |
|---|---|---|
| `Strings.Strip` | answer/lastname_firstname_grade_the_exams.py:27 | the stripped line has no whitespace at either end |
| `Strings.StripPadded` | answer/lastname_firstname_grade_the_exams.py:27 | whitespace added before or after a line never changes `line.strip()` |
| `Strings.Split` | answer/lastname_firstname_grade_the_exams.py:27 | `split(',')` gives one more field than there are commas, and no field holds a comma |
| `Strings.Join` | answer/lastname_firstname_grade_the_exams.py:23 | `','.join(parts)`; characterised by `JoinSplit` and `SplitJoin` as the inverse of `split(',')` |
| `Strings.JoinSplit` | answer/lastname_firstname_grade_the_exams.py:23 | joining the fields of a split with `,` gives back the string |
| `Strings.SplitJoin` | answer/lastname_firstname_grade_the_exams.py:23 | splitting a join of comma-free fields gives back the fields |
| `Strings.SplitAtFirstComma` | answer/lastname_firstname_grade_the_exams.py:21-23 | the first field is the text before the first comma; the other fields are the split of the text after it |
| `Sorting.SortBy` | answer/lastname_firstname_grade_the_exams.py:132 | `sorted` returns a permutation of its input that is in order of the key |
| `Sorting.SortInts` | answer/lastname_firstname_grade_the_exams.py:112 | `sorted(scores)` is an ascending permutation of the scores |
| `Sorting.AscendingUnique` | answer/lastname_firstname_grade_the_exams.py:112 | two ascending permutations of the same integers are equal |
| `Sorting.SortIntsPermutation` | answer/lastname_firstname_grade_the_exams.py:112 | sorting two reorderings of the same scores gives the same list |
| `Validator.Validation` | answer/lastname_firstname_grade_the_exams.py:26-33 | `validation`: a valid line has 25 answers and an identifier of 9 characters starting with `N`; characterised in both directions by `ValidationMeaning` |
| `Validator.GuardedValidation` | answer/student_grading_grogramm.py:14-24 | `validation` with early returns; agrees with `Validation` on every line by `ValidationFormsAgree`, and its guards are `GuardedRejectsFieldCount` and `GuardedChecksId` |
| `Validator.Fields` | answer/lastname_firstname_grade_the_exams.py:27 | a stripped and split line has at least one field, so `parts[0]` always exists |
| `Validator.ValidationMeaning` | answer/lastname_firstname_grade_the_exams.py:26-33 | a line is valid iff its stripped form has 25 commas and its first field has length 9, starts with `N`, and has 8 ASCII digits after the `N` |
| `Validator.ValidationIgnoresPadding` | answer/lastname_firstname_grade_the_exams.py:27 | leading or trailing whitespace, such as the newline kept by `readlines`, changes neither validity nor the fields |
| `Validator.JoinedFields` | answer/lastname_firstname_grade_the_exams.py:27 | a line joined from comma-free fields, with no whitespace at its two ends, reads back as the same fields |
| `Validator.RecordRoundTrip` | answer/lastname_firstname_grade_the_exams.py:26-33 | writing a well-formed identifier and 25 comma-free answers as one line gives a valid line that reads back as the same identifier and answers |
| `Validator.GuardedRejectsFieldCount` | answer/student_grading_grogramm.py:19-21 | the early-return form rejects every line whose stripped form does not have exactly 26 fields |
| `Validator.GuardedChecksId` | answer/student_grading_grogramm.py:22-24 | on a 26-field line, the early-return form accepts iff the identifier is `N` followed by 8 digits, 9 characters in all |
| `Validator.ValidationFormsAgree` | answer/student_grading_grogramm.py:14-24 | the early-return form and the conjunction form agree on every line |
| `HeaderKey.GetAnswerKey` | answer/lastname_firstname_grade_the_exams.py:19-23 | `get_answer_key`, with the implicit `None`; when it gives a key and what that key is are stated by `HeaderKeyIsLineTail` |
| `HeaderKey.LineTail` | answer/lastname_firstname_grade_the_exams.py:21-23 | on a line with 25 commas, the fields after the first, joined again, are the line after its first comma; the first field starts with `N` iff the line does |
| `HeaderKey.HeaderKeyIsLineTail` | answer/lastname_firstname_grade_the_exams.py:19-23 | a key is returned iff the file is non-empty and the stripped first line has 26 fields and starts with `N`; the key is then that line after its first comma and splits into the line's 25 answers |
| `HeaderKey.ValidFirstLineGivesKey` | answer/lastname_firstname_grade_the_exams.py:19-23 | a file whose first line is a valid record always gives a key of 25 fields |
| `LineCounter.CountValid` | answer/lastname_firstname_grade_the_exams.py:40-44 | the number of valid lines is at most the number of lines |
| `LineCounter.CountValidPermutation` | answer/student_grading_grogramm.py:31-35 | the number of valid lines does not depend on the order of the lines |
| `LineCounter.AnalyzeData` | answer/lastname_firstname_grade_the_exams.py:35-49 | `valid_lines` is the number of lines `validation` accepts, and `valid_lines + invalid_lines == len(data_lines)` |
| `LineCounter.AnalyzeDataGuarded` | answer/student_grading_grogramm.py:26-40 | the same counts, computed with the early-return `validation` |
| `Scorer.MarkOf` | answer/lastname_firstname_grade_the_exams.py:85-101 | an answer is skipped iff it is empty, and against a non-empty key answer it is correct iff it equals that answer |
| `Scorer.CountMarks` | answer/lastname_firstname_grade_the_exams.py:84-101 | the number of answers with a given mark is at most the number of answers examined |
| `Scorer.MarksPartition` | answer/lastname_firstname_grade_the_exams.py:80-101 | each answer is exactly one of skipped, correct or wrong |
| `Scorer.CorrectMeansMatching` | answer/lastname_firstname_grade_the_exams.py:92-94 | with a key of non-empty answers, the correct answers are exactly the positions where `answers[i] == answer_key[i]` |
| `Scorer.LineScore` | answer/lastname_firstname_grade_the_exams.py:79-104 | a valid line scores 4 points per correct answer, a multiple of 4 between 0 and 100 |
| `Scorer.LineMarksPartition` | answer/lastname_firstname_grade_the_exams.py:80-101 | for every valid line, `skipped + wrong + score / 4 == 25` |
| `Scorer.ValidLines` | answer/lastname_firstname_grade_the_exams.py:69-76 | the lines kept by the loop are all valid, one per valid input line |
| `Scorer.ValidLinesSingle` | answer/lastname_firstname_grade_the_exams.py:74-76 | a single line is kept exactly when `validation` accepts it |
| `Scorer.ValidLinesAppend` | answer/lastname_firstname_grade_the_exams.py:69-76 | the kept lines of two consecutive stretches of input are the kept lines of the first followed by those of the second, so the valid lines are kept in input order |
| `Scorer.Scores` | answer/lastname_firstname_grade_the_exams.py:69-104 | there is one score per valid line, so `len(data_lines) - len(scores)` is the number of invalid lines |
| `Scorer.ScoresOfValidLines` | answer/lastname_firstname_grade_the_exams.py:69-104 | the j-th score is the score of the j-th valid line in input order, a multiple of 4 between 0 and 100 |
| `Scorer.QuestionCountBound` | answer/lastname_firstname_grade_the_exams.py:85-101 | a question is counted at most once per valid line |
| `Scorer.QuestionPartition` | answer/lastname_firstname_grade_the_exams.py:84-101 | over all valid lines, each question's skipped, wrong and correct counts add up to the number of valid lines |
| `Scorer.TalliesBounds` | answer/lastname_firstname_grade_the_exams.py:85-101 | every key of `skipped_questions` and `wrong_answers` is in 1..25, and every count is between 1 and `len(scores)` |
| `Aggregator.Max` | answer/lastname_firstname_grade_the_exams.py:109 | `highest_score` is one of the scores and no score exceeds it |
| `Aggregator.Min` | answer/lastname_firstname_grade_the_exams.py:110 | `lowest_score` is one of the scores and no score is below it |
| `Aggregator.HighScores` | answer/lastname_firstname_grade_the_exams.py:107 | `high_scores` is at most the number of scores |
| `Aggregator.HighScoresExtremes` | answer/lastname_firstname_grade_the_exams.py:107 | `high_scores` is 0 iff no score exceeds 80, and is every score iff all exceed 80 |
| `Aggregator.SortedWithinBounds` | answer/lastname_firstname_grade_the_exams.py:109-112 | every element of the sorted scores lies between the lowest and the highest score |
| `Aggregator.Mean` | answer/lastname_firstname_grade_the_exams.py:108 | the exact mean times the number of scores is their sum; `MeanBounds` places it between lowest and highest |
| `Aggregator.Middle` | answer/lastname_firstname_grade_the_exams.py:113-118 | the middle element of a sorted list, or the true-division mean of the two middle ones; bounded by `MiddleBounds` |
| `Aggregator.Median` | answer/lastname_firstname_grade_the_exams.py:112-118 | `Middle` of `sorted(scores)`; `MedianBounds` and `MedianPermutation` state its bounds and its independence of order |
| `Aggregator.MiddleBounds` | answer/lastname_firstname_grade_the_exams.py:113-118 | the middle element, or the mean of the two middle elements, lies within any bounds of the list |
| `Aggregator.MedianBounds` | answer/lastname_firstname_grade_the_exams.py:112-118 | `lowest_score <= median_score <= highest_score` |
| `Aggregator.MedianPermutation` | answer/lastname_firstname_grade_the_exams.py:112-118 | the median does not depend on the order of the scores |
| `Aggregator.MeanBounds` | answer/lastname_firstname_grade_the_exams.py:108 | the exact mean lies between the lowest and the highest score |
| `Aggregator.Summarize` | answer/lastname_firstname_grade_the_exams.py:107-118 | for a non-empty list: `high_scores` counts the scores above 80 and is at most `len(scores)`, highest and lowest are scores bounding all others, `score_range == highest_score - lowest_score >= 0`, and the median and mean lie between lowest and highest |
| `Aggregator.Items` | answer/lastname_firstname_grade_the_exams.py:132 | the items of a question table are exactly its entries, each question once, in question order |
| `Aggregator.Rank` | answer/lastname_firstname_grade_the_exams.py:132 | a ranking is a permutation of the table's entries, with counts in non-increasing order |
| `Grader.Bump` | answer/lastname_firstname_grade_the_exams.py:88-91 | incrementing a question adds it to the table with one more than before (from 0 if absent) and leaves the other questions alone |
| `Grader.AddsMarksBump` | answer/lastname_firstname_grade_the_exams.py:88-101 | an answer with the tallied mark bumps exactly its own question |
| `Grader.TalliesAddLine` | answer/lastname_firstname_grade_the_exams.py:85-101 | adding the marks of a valid line to the tables of the lines before it gives the tables including that line |
| `Grader.TalliesSkipInvalid` | answer/lastname_firstname_grade_the_exams.py:74-76 | an invalid line leaves both tables unchanged |
| `Grader.InvalidLineStep` | answer/lastname_firstname_grade_the_exams.py:74-76 | skipping an invalid line keeps the scores and both tables equal to those of the lines read so far, now including that line |
| `Grader.ValidLineStep` | answer/lastname_firstname_grade_the_exams.py:79-104 | appending a valid line's score and adding its marks to the tables gives the scores and tables of the lines read so far, now including that line; the score is never negative |
| `Grader.MarkAnswers` | answer/lastname_firstname_grade_the_exams.py:79-101 | the inner loop returns the score (4 × correct answers) and the skipped and wrong counts of one line, and adds that line's skipped and wrong questions to the two tables |
| `Grader.ScoreLines` | answer/lastname_firstname_grade_the_exams.py:69-104 | the loop returns one score per valid line in input order; each table maps a question to the number of valid lines where it was skipped (or wrong), and holds only questions with a count above 0 |
| `Grader.GradeExam` | answer/lastname_firstname_grade_the_exams.py:52-141 | the scores and tables above; there is a report iff some line is valid; the report has `len(scores)` valid lines, `len(data_lines) - len(scores)` invalid lines, the statistics and both rankings |
| `Grader.StudentIds` | answer/lastname_firstname_grade_the_exams.py:186 | there is one identifier per valid line |
| `Grader.IdsMatchScores` | answer/lastname_firstname_grade_the_exams.py:186 | the identifier list and the score list have the same length, and their j-th entries come from the same (j-th valid) line |

## Left out

- `open_file` (file reading and the `FileNotFoundError` message), `save_result` (pandas `to_csv` and `os.makedirs`) and both `main` loops (interactive `input()`): these are I/O. The lines of a file are a parameter.
- All printing, including the invalid-line messages of `analyze_data` and the formatting of the report.
- The rounding of the mean to 2 decimals (`round(np.mean(scores), 2)`) and the skip/wrong percentages (`round(count / len(scores), 2)`): these are floating-point. The mean is the exact real `sum / count`, and the percentages are not modelled.
- Aggregator.Rank: lists a table's entries in question order before sorting, whereas Python lists them in insertion order. Only the order of questions with equal counts can differ; the model does not state that tie-break.
- Aggregator.Rank: requires every question number to be in 1..25. The tables built by the grading loop always meet this (`Scorer.TalliesBounds`).
- Aggregator.Summarize: requires at least one score, because `max` raises on an empty list. `GradeExam` gives no report in that case instead of raising.
- Aggregator.Median: is exact real division. Python computes the even case in floating point, which is exact for these small integer scores.
- Strings.IsSpace and Strings.IsDigit: whitespace beyond the Latin-1 range and the non-ASCII digits that Python's `str.isspace` and `str.isdigit` accept are not modelled.
- `get_answer_key`'s result is modelled, but the script's `main` never uses it, and grades with the fixed key instead. The model takes the key as a parameter.
