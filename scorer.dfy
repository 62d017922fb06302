/** What `grade_exam` computes for each line: the mark of every answer, the
    score of every valid line, and how often each question is skipped or
    answered wrongly. These functions are the specification the loop of
    `Grader.GradeExam` is proved against. */
module Scorer {
  import opened Validator
  import opened LineCounter

  /** Number of questions on the exam, and so of answers on a line. */
  const Questions: nat := 25

  /** How one answer is marked. */
  datatype Mark = Skipped | Correct | Wrong

  /** An empty answer is skipped; otherwise it is correct when it equals the
      key's answer at the same (0-based) position, and wrong if not. */
  function MarkOf(key: seq<string>, answer: string, i: nat): (r: Mark)
    requires i < |key|
    ensures r == Skipped <==> answer == ""
    ensures key[i] != "" ==> (r == Correct <==> answer == key[i])
  {
    if answer == "" then Skipped
    else if answer == key[i] then Correct
    else Wrong
  }

  /** Number of the first `n` answers marked `m`. */
  function CountMarks(key: seq<string>, answers: seq<string>, n: nat, m: Mark): (r: nat)
    requires n <= |answers| && n <= |key|
    ensures r <= n
  {
    if n == 0 then 0
    else CountMarks(key, answers, n - 1, m) + (if MarkOf(key, answers[n - 1], n - 1) == m then 1 else 0)
  }

  /** Every answer falls in exactly one of the three cases. */
  lemma {:induction false} MarksPartition(key: seq<string>, answers: seq<string>, n: nat)
    requires n <= |answers| && n <= |key|
    ensures CountMarks(key, answers, n, Skipped) + CountMarks(key, answers, n, Wrong)
            + CountMarks(key, answers, n, Correct) == n
  {
    if n > 0 {
      MarksPartition(key, answers, n - 1);
    }
  }

  /** Number of the first `n` positions where the answer equals the key. */
  function Matches(key: seq<string>, answers: seq<string>, n: nat): nat
    requires n <= |answers| && n <= |key|
  {
    if n == 0 then 0
    else Matches(key, answers, n - 1) + (if answers[n - 1] == key[n - 1] then 1 else 0)
  }

  /** With a key of non-empty answers (as every real key is), the correct
      answers are exactly those equal to the key. */
  lemma {:induction false} CorrectMeansMatching(key: seq<string>, answers: seq<string>, n: nat)
    requires n <= |answers| && n <= |key|
    requires forall i :: 0 <= i < n ==> key[i] != ""
    ensures CountMarks(key, answers, n, Correct) == Matches(key, answers, n)
  {
    if n > 0 {
      CorrectMeansMatching(key, answers, n - 1);
    }
  }

  /** The score of a valid line: 4 points per correct answer, so a multiple
      of 4 between 0 and 100 (the clamp at 0 in the source never applies). */
  function LineScore(key: seq<string>, line: string): (r: nat)
    requires |key| == Questions && Validation(line)
    ensures r % 4 == 0 && r <= 4 * Questions
  {
    4 * CountMarks(key, Answers(line), Questions, Correct)
  }

  /** For every valid line, skipped + wrong + score / 4 == 25. */
  lemma LineMarksPartition(key: seq<string>, line: string)
    requires |key| == Questions && Validation(line)
    ensures CountMarks(key, Answers(line), Questions, Skipped)
            + CountMarks(key, Answers(line), Questions, Wrong)
            + LineScore(key, line) / 4 == Questions
  {
    MarksPartition(key, Answers(line), Questions);
  }

  /** The lines `validation` accepts, in input order. */
  function ValidLines(lines: seq<string>): (r: seq<string>)
    ensures |r| == CountValid(lines)
    ensures forall j :: 0 <= j < |r| ==> Validation(r[j])
  {
    if lines == [] then []
    else
      var last := lines[|lines| - 1];
      ValidLines(lines[..|lines| - 1]) + (if Validation(last) then [last] else [])
  }

  /** A single line is kept exactly when it is valid. */
  lemma ValidLinesSingle(x: string)
    ensures ValidLines([x]) == if Validation(x) then [x] else []
  {
    assert [x][..0] == [];
  }

  /** Filtering a concatenation filters each part and keeps their order, so
      the kept lines are the input's valid lines in input order. */
  lemma {:induction false} ValidLinesAppend(a: seq<string>, b: seq<string>)
    ensures ValidLines(a + b) == ValidLines(a) + ValidLines(b)
  {
    if b == [] {
      assert a + b == a;
    } else {
      var n := |b| - 1;
      assert (a + b)[..|a + b| - 1] == a + b[..n];
      assert (a + b)[|a + b| - 1] == b[n];
      ValidLinesAppend(a, b[..n]);
    }
  }

  /** One score per valid line, in input order: the list `grade_exam` returns. */
  function Scores(key: seq<string>, lines: seq<string>): (r: seq<int>)
    requires |key| == Questions
    ensures |r| == CountValid(lines)
  {
    if lines == [] then []
    else
      var last := lines[|lines| - 1];
      Scores(key, lines[..|lines| - 1]) + (if Validation(last) then [LineScore(key, last)] else [])
  }

  /** The j-th score is the score of the j-th valid line; in particular every
      score is a multiple of 4 between 0 and 100. */
  lemma {:induction false} ScoresOfValidLines(key: seq<string>, lines: seq<string>)
    requires |key| == Questions
    ensures forall j :: 0 <= j < |Scores(key, lines)| ==>
      Scores(key, lines)[j] == LineScore(key, ValidLines(lines)[j])
      && 0 <= Scores(key, lines)[j] <= 100 && Scores(key, lines)[j] % 4 == 0
  {
    if lines != [] {
      ScoresOfValidLines(key, lines[..|lines| - 1]);
    }
  }

  /** Number of valid lines whose answer to question `q` (1-based) is marked `m`. */
  function QuestionCount(key: seq<string>, lines: seq<string>, q: int, m: Mark): (r: nat)
    requires |key| == Questions && 1 <= q <= Questions
  {
    if lines == [] then 0
    else
      var last := lines[|lines| - 1];
      QuestionCount(key, lines[..|lines| - 1], q, m)
      + (if Validation(last) && MarkOf(key, Answers(last)[q - 1], q - 1) == m then 1 else 0)
  }

  /** A question is counted at most once per valid line. */
  lemma {:induction false} QuestionCountBound(key: seq<string>, lines: seq<string>, q: int, m: Mark)
    requires |key| == Questions && 1 <= q <= Questions
    ensures QuestionCount(key, lines, q, m) <= CountValid(lines)
  {
    if lines != [] {
      QuestionCountBound(key, lines[..|lines| - 1], q, m);
    }
  }

  /** On every valid line each question is skipped, correct or wrong. */
  lemma {:induction false} QuestionPartition(key: seq<string>, lines: seq<string>, q: int)
    requires |key| == Questions && 1 <= q <= Questions
    ensures QuestionCount(key, lines, q, Skipped) + QuestionCount(key, lines, q, Wrong)
            + QuestionCount(key, lines, q, Correct) == CountValid(lines)
  {
    if lines != [] {
      QuestionPartition(key, lines[..|lines| - 1], q);
    }
  }

  /** `table` is a dictionary of question -> count for mark `m`: it holds
      exactly the questions marked `m` on some valid line, with how many
      valid lines mark them so. */
  ghost predicate Tallies(table: map<int, nat>, key: seq<string>, lines: seq<string>, m: Mark)
    requires |key| == Questions
  {
    forall q ::
      (q in table <==> 1 <= q <= Questions && QuestionCount(key, lines, q, m) > 0)
      && (q in table ==> 1 <= q <= Questions && table[q] == QuestionCount(key, lines, q, m))
  }

  /** Every key of such a dictionary is a question number and every count is
      between 1 and the number of valid lines. */
  lemma TalliesBounds(table: map<int, nat>, key: seq<string>, lines: seq<string>, m: Mark)
    requires |key| == Questions && Tallies(table, key, lines, m)
    ensures forall q :: q in table ==> 1 <= q <= Questions && 1 <= table[q] <= CountValid(lines)
  {
    forall q | q in table
      ensures 1 <= q <= Questions && 1 <= table[q] <= CountValid(lines)
    {
      QuestionCountBound(key, lines, q, m);
    }
  }
}
