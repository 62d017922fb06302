/** `grade_exam`: the loop that scores every valid line and tallies skipped
    and wrong answers per question, followed by the statistics and the two
    rankings; and the list of student identifiers the caller saves beside
    the scores. */
module Grader {
  import opened Wrappers
  import opened Validator
  import opened LineCounter
  import opened Scorer
  import opened Aggregator

  /** Everything `grade_exam` reports once the scores are known. */
  datatype Report = Report(
    validLines: nat,
    invalidLines: int,
    stats: Statistics,
    mostSkipped: seq<Row>,
    mostWrong: seq<Row>)

  /** The count stored for question `q`, 0 when it is not yet a key. */
  function Get(table: map<int, nat>, q: int): nat {
    if q in table then table[q] else 0
  }

  /** `table[q] += 1`, starting from 0 for a question not yet in the table. */
  function Bump(table: map<int, nat>, q: int): (r: map<int, nat>)
    ensures r.Keys == table.Keys + {q}
    ensures r[q] == Get(table, q) + 1
    ensures forall p :: p in table && p != q ==> r[p] == table[p]
  {
    table[q := Get(table, q) + 1]
  }

  /** 1 when question `q` is among the first `n` and its answer is marked `m`. */
  function Hit(key: seq<string>, answers: seq<string>, n: nat, q: int, m: Mark): nat
    requires n <= |answers| && n <= |key|
  {
    if 1 <= q <= n && MarkOf(key, answers[q - 1], q - 1) == m then 1 else 0
  }

  /** `after` is `before` with one more count for every question among the
      first `n` whose answer is marked `m`. */
  ghost predicate AddsMarks(after: map<int, nat>, before: map<int, nat>, key: seq<string>,
                            answers: seq<string>, n: nat, m: Mark)
    requires n <= |answers| && n <= |key|
  {
    forall q ::
      (q in after <==> q in before || Hit(key, answers, n, q, m) == 1)
      && (q in after ==> after[q] == Get(before, q) + Hit(key, answers, n, q, m))
  }

  /** Answer `i` marked `m` bumps question i + 1. */
  lemma AddsMarksBump(after: map<int, nat>, before: map<int, nat>, key: seq<string>,
                      answers: seq<string>, i: nat, m: Mark)
    requires i < |answers| && i < |key|
    requires AddsMarks(after, before, key, answers, i, m)
    requires MarkOf(key, answers[i], i) == m
    ensures AddsMarks(Bump(after, i + 1), before, key, answers, i + 1, m)
  {
    forall q
      ensures Hit(key, answers, i + 1, q, m) == Hit(key, answers, i, q, m) + (if q == i + 1 then 1 else 0)
    {
    }
  }

  /** An answer with another mark leaves the tally for `m` as it is. */
  lemma AddsMarksKeep(after: map<int, nat>, before: map<int, nat>, key: seq<string>,
                      answers: seq<string>, i: nat, m: Mark)
    requires i < |answers| && i < |key|
    requires AddsMarks(after, before, key, answers, i, m)
    requires MarkOf(key, answers[i], i) != m
    ensures AddsMarks(after, before, key, answers, i + 1, m)
  {
    forall q
      ensures Hit(key, answers, i + 1, q, m) == Hit(key, answers, i, q, m)
    {
    }
  }

  /** Adding one line adds its marks to every question's count. */
  lemma QuestionCountStep(key: seq<string>, lines: seq<string>, k: nat, m: Mark)
    requires |key| == Questions && k < |lines|
    ensures forall q :: 1 <= q <= Questions ==>
      QuestionCount(key, lines[..k + 1], q, m) == QuestionCount(key, lines[..k], q, m)
        + (if Validation(lines[k]) && MarkOf(key, Answers(lines[k])[q - 1], q - 1) == m then 1 else 0)
  {
    assert lines[..k + 1][..k] == lines[..k];
  }

  /** Adding the marks of valid line k to the tally of the lines before it
      gives the tally of the lines up to and including it. */
  lemma TalliesAddLine(after: map<int, nat>, before: map<int, nat>, key: seq<string>,
                       lines: seq<string>, k: nat, m: Mark)
    requires |key| == Questions && k < |lines| && Validation(lines[k])
    requires Tallies(before, key, lines[..k], m)
    requires AddsMarks(after, before, key, Answers(lines[k]), Questions, m)
    ensures Tallies(after, key, lines[..k + 1], m)
  {
    QuestionCountStep(key, lines, k, m);
  }

  /** Adding one line appends its score when it is valid. */
  lemma ScoresStep(key: seq<string>, lines: seq<string>, k: nat)
    requires |key| == Questions && k < |lines|
    ensures Scores(key, lines[..k + 1]) ==
      Scores(key, lines[..k]) + (if Validation(lines[k]) then [LineScore(key, lines[k])] else [])
  {
    assert lines[..k + 1][..k] == lines[..k];
  }

  /** An invalid line leaves every tally as it is. */
  lemma TalliesSkipInvalid(table: map<int, nat>, key: seq<string>, lines: seq<string>, k: nat, m: Mark)
    requires |key| == Questions && k < |lines| && !Validation(lines[k])
    requires Tallies(table, key, lines[..k], m)
    ensures Tallies(table, key, lines[..k + 1], m)
  {
    QuestionCountStep(key, lines, k, m);
  }

  /** The inner loop of `grade_exam` over the answers of one valid line: the
      score and the numbers of skipped and wrong answers of the line, and the
      two tables with this line's skipped and wrong questions counted in. */
  method MarkAnswers(answerKey: seq<string>, studentAnswers: seq<string>,
                     skippedQuestions: map<int, nat>, wrongAnswers: map<int, nat>)
    returns (score: int, skipped: int, wrong: int,
             skippedAfter: map<int, nat>, wrongAfter: map<int, nat>)
    requires |answerKey| == Questions && |studentAnswers| == Questions
    ensures score == 4 * CountMarks(answerKey, studentAnswers, Questions, Correct)
    ensures skipped == CountMarks(answerKey, studentAnswers, Questions, Skipped)
    ensures wrong == CountMarks(answerKey, studentAnswers, Questions, Wrong)
    ensures AddsMarks(skippedAfter, skippedQuestions, answerKey, studentAnswers, Questions, Skipped)
    ensures AddsMarks(wrongAfter, wrongAnswers, answerKey, studentAnswers, Questions, Wrong)
  {
    score, skipped, wrong := 0, 0, 0;
    skippedAfter, wrongAfter := skippedQuestions, wrongAnswers;
    for i := 0 to |studentAnswers|
      invariant score == 4 * CountMarks(answerKey, studentAnswers, i, Correct)
      invariant skipped == CountMarks(answerKey, studentAnswers, i, Skipped)
      invariant wrong == CountMarks(answerKey, studentAnswers, i, Wrong)
      invariant AddsMarks(skippedAfter, skippedQuestions, answerKey, studentAnswers, i, Skipped)
      invariant AddsMarks(wrongAfter, wrongAnswers, answerKey, studentAnswers, i, Wrong)
    {
      var answer := studentAnswers[i];
      ghost var mark := MarkOf(answerKey, answer, i);
      if mark == Skipped {
        AddsMarksBump(skippedAfter, skippedQuestions, answerKey, studentAnswers, i, Skipped);
      } else {
        AddsMarksKeep(skippedAfter, skippedQuestions, answerKey, studentAnswers, i, Skipped);
      }
      if mark == Wrong {
        AddsMarksBump(wrongAfter, wrongAnswers, answerKey, studentAnswers, i, Wrong);
      } else {
        AddsMarksKeep(wrongAfter, wrongAnswers, answerKey, studentAnswers, i, Wrong);
      }
      if answer == "" {
        skipped := skipped + 1;
        if i + 1 !in skippedAfter {
          skippedAfter := skippedAfter[i + 1 := 1];
        } else {
          skippedAfter := skippedAfter[i + 1 := skippedAfter[i + 1] + 1];
        }
      } else if answer == answerKey[i] {
        score := score + 4;
      } else {
        wrong := wrong + 1;
        if i + 1 !in wrongAfter {
          wrongAfter := wrongAfter[i + 1 := 1];
        } else {
          wrongAfter := wrongAfter[i + 1 := wrongAfter[i + 1] + 1];
        }
      }
    }
  }

  /** The loop state after the lines before `k`: their scores and both tables. */
  ghost predicate GradedUpTo(scores: seq<int>, skippedQuestions: map<int, nat>, wrongAnswers: map<int, nat>,
                             key: seq<string>, lines: seq<string>)
    requires |key| == Questions
  {
    scores == Scores(key, lines)
    && Tallies(skippedQuestions, key, lines, Skipped)
    && Tallies(wrongAnswers, key, lines, Wrong)
  }

  /** An invalid line k leaves the scores and both tables as they are. */
  lemma InvalidLineStep(key: seq<string>, lines: seq<string>, k: nat,
                        scores: seq<int>, skippedQuestions: map<int, nat>, wrongAnswers: map<int, nat>)
    requires |key| == Questions && k < |lines| && !Validation(lines[k])
    requires GradedUpTo(scores, skippedQuestions, wrongAnswers, key, lines[..k])
    ensures GradedUpTo(scores, skippedQuestions, wrongAnswers, key, lines[..k + 1])
  {
    ScoresStep(key, lines, k);
    TalliesSkipInvalid(skippedQuestions, key, lines, k, Skipped);
    TalliesSkipInvalid(wrongAnswers, key, lines, k, Wrong);
  }

  /** Valid line k appends its score and adds its skipped and wrong
      questions to the tables. */
  lemma ValidLineStep(key: seq<string>, lines: seq<string>, k: nat,
                      scores: seq<int>, skippedQuestions: map<int, nat>, wrongAnswers: map<int, nat>,
                      score: int, skippedAfter: map<int, nat>, wrongAfter: map<int, nat>)
    requires |key| == Questions && k < |lines| && Validation(lines[k])
    requires GradedUpTo(scores, skippedQuestions, wrongAnswers, key, lines[..k])
    requires score == 4 * CountMarks(key, Answers(lines[k]), Questions, Correct)
    requires AddsMarks(skippedAfter, skippedQuestions, key, Answers(lines[k]), Questions, Skipped)
    requires AddsMarks(wrongAfter, wrongAnswers, key, Answers(lines[k]), Questions, Wrong)
    ensures score >= 0
    ensures GradedUpTo(scores + [score], skippedAfter, wrongAfter, key, lines[..k + 1])
  {
    ScoresStep(key, lines, k);
    TalliesAddLine(skippedAfter, skippedQuestions, key, lines, k, Skipped);
    TalliesAddLine(wrongAfter, wrongAnswers, key, lines, k, Wrong);
  }

  /** The loop of `grade_exam` over the lines: invalid lines are skipped;
      each valid line appends its score (clamped at 0, which never changes
      it) and counts its skipped and wrong questions. */
  method ScoreLines(answerKey: seq<string>, dataLines: seq<string>)
    returns (scores: seq<int>, skippedQuestions: map<int, nat>, wrongAnswers: map<int, nat>)
    requires |answerKey| == Questions
    ensures scores == Scores(answerKey, dataLines)
    ensures Tallies(skippedQuestions, answerKey, dataLines, Skipped)
    ensures Tallies(wrongAnswers, answerKey, dataLines, Wrong)
  {
    scores := [];
    skippedQuestions := map[];
    wrongAnswers := map[];
    for k := 0 to |dataLines|
      invariant GradedUpTo(scores, skippedQuestions, wrongAnswers, answerKey, dataLines[..k])
    {
      var line := dataLines[k];
      var studentAnswers := Fields(line)[1..];
      if !Validation(line) {
        InvalidLineStep(answerKey, dataLines, k, scores, skippedQuestions, wrongAnswers);
        continue;
      }
      var score, skipped, wrong, skippedAfter, wrongAfter :=
        MarkAnswers(answerKey, studentAnswers, skippedQuestions, wrongAnswers);
      ValidLineStep(answerKey, dataLines, k, scores, skippedQuestions, wrongAnswers,
                    score, skippedAfter, wrongAfter);
      skippedQuestions, wrongAnswers := skippedAfter, wrongAfter;
      scores := scores + [if score >= 0 then score else 0];
    }
    assert dataLines[..|dataLines|] == dataLines;
  }

  /** `grade_exam`: the scores, the two question tables, and the report. The
      answer key is a parameter (the source passes its global key). The
      statistics need at least one valid line: the source's `max(scores)`
      raises on an empty list, which gives no report here. */
  method GradeExam(answerKey: seq<string>, dataLines: seq<string>)
    returns (scores: seq<int>, skippedQuestions: map<int, nat>, wrongAnswers: map<int, nat>,
             report: Option<Report>)
    requires |answerKey| == Questions
    ensures scores == Scores(answerKey, dataLines)
    ensures Tallies(skippedQuestions, answerKey, dataLines, Skipped)
    ensures Tallies(wrongAnswers, answerKey, dataLines, Wrong)
    ensures report.None? <==> CountValid(dataLines) == 0
    ensures report.Some? ==> report.value == Report(
      |scores|, |dataLines| - |scores|, Summarize(scores), Rank(skippedQuestions), Rank(wrongAnswers))
  {
    scores, skippedQuestions, wrongAnswers := ScoreLines(answerKey, dataLines);
    if |scores| == 0 {
      report := None;
    } else {
      TalliesBounds(skippedQuestions, answerKey, dataLines, Skipped);
      TalliesBounds(wrongAnswers, answerKey, dataLines, Wrong);
      report := Some(Report(
        |scores|, |dataLines| - |scores|, Summarize(scores), Rank(skippedQuestions), Rank(wrongAnswers)));
    }
  }

  /** The identifiers the caller saves beside the scores: the first field of
      every valid line, in input order. */
  function StudentIds(dataLines: seq<string>): (r: seq<string>)
    ensures |r| == CountValid(dataLines)
  {
    if dataLines == [] then []
    else
      var last := dataLines[|dataLines| - 1];
      StudentIds(dataLines[..|dataLines| - 1]) + (if Validation(last) then [Id(last)] else [])
  }

  /** The saved table pairs each identifier with the score of the same line:
      the j-th identifier and the j-th score both come from the j-th valid
      line. */
  lemma {:induction false} IdsMatchScores(answerKey: seq<string>, dataLines: seq<string>)
    requires |answerKey| == Questions
    ensures |StudentIds(dataLines)| == |Scores(answerKey, dataLines)|
    ensures forall j :: 0 <= j < |StudentIds(dataLines)| ==>
      StudentIds(dataLines)[j] == Id(ValidLines(dataLines)[j])
      && Scores(answerKey, dataLines)[j] == LineScore(answerKey, ValidLines(dataLines)[j])
  {
    ScoresOfValidLines(answerKey, dataLines);
    if dataLines != [] {
      IdsMatchScores(answerKey, dataLines[..|dataLines| - 1]);
    }
  }
}
