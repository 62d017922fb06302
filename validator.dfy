/** The record validator, in the two forms the repository has: a single
    conjunction (`validation` in lastname_firstname_grade_the_exams.py) and a
    chain of early returns (`validation` in student_grading_grogramm.py). */
module Validator {
  import opened Strings

  /** `line.strip().split(',')`. */
  function Fields(line: string): (r: seq<string>)
    ensures |r| >= 1
  {
    Split(Strip(line))
  }

  /** The student identifier of a line: its first field. */
  function Id(line: string): string {
    Fields(line)[0]
  }

  /** The answers of a line: every field after the first. */
  function Answers(line: string): seq<string> {
    Fields(line)[1..]
  }

  /** `validation`, conjunction form: 26 fields, and the first one starts with
      `N`, continues with digits only, and is 9 characters long. */
  predicate Validation(line: string)
    ensures Validation(line) ==> |Answers(line)| == 25 && |Id(line)| == 9 && Id(line)[0] == 'N'
  {
    var parts := Fields(line);
    |parts| == 26
    && StartsWith(parts[0], "N")
    && IsDigits(parts[0][1..])
    && |parts[0]| == 9
  }

  /** `validation`, early-return form. */
  predicate GuardedValidation(line: string) {
    var parts := Fields(line);
    if |parts| != 26 then false
    else if !(StartsWith(parts[0], "N") && IsDigits(parts[0][1..]) && |parts[0]| == 9) then false
    else true
  }

  /** A line is valid exactly when its stripped form has 26 comma-separated
      fields and the first is `N` followed by eight ASCII digits. */
  lemma ValidationMeaning(line: string)
    ensures Validation(line) <==>
      Occurrences(Strip(line), ',') == 25
      && |Id(line)| == 9 && Id(line)[0] == 'N'
      && forall i :: 1 <= i < 9 ==> IsDigit(Id(line)[i])
  {
    var f := Id(line);
    if |f| == 9 && f[0] == 'N' {
      assert StartsWith(f, "N");
      assert (forall i :: 1 <= i < 9 ==> IsDigit(f[i])) <==> IsDigits(f[1..]) by {
        assert forall i :: 1 <= i < 9 ==> f[1..][i - 1] == f[i];
      }
    }
  }

  /** Leading and trailing whitespace, such as the newline `readlines` keeps,
      never changes whether a line is valid, nor its identifier or answers. */
  lemma ValidationIgnoresPadding(a: string, line: string, b: string)
    requires AllSpace(a) && AllSpace(b)
    ensures Validation(a + line + b) == Validation(line)
    ensures Fields(a + line + b) == Fields(line)
  {
    StripPadded(a, line, b);
  }

  /** The early-return form rejects a line whose stripped form does not have
      exactly 25 commas. */
  lemma GuardedRejectsFieldCount(line: string)
    requires Occurrences(Strip(line), ',') != 25
    ensures !GuardedValidation(line)
  {
  }

  /** The early-return form rejects a malformed identifier and accepts a
      26-field line with a well-formed one. */
  lemma GuardedChecksId(line: string)
    requires |Fields(line)| == 26
    ensures GuardedValidation(line) <==>
      |Id(line)| == 9 && Id(line)[0] == 'N' && forall i :: 1 <= i < 9 ==> IsDigit(Id(line)[i])
  {
    ValidationMeaning(line);
  }

  /** The two forms of `validation` agree on every line. */
  lemma ValidationFormsAgree(line: string)
    ensures GuardedValidation(line) == Validation(line)
  {
  }

  /** The last character of a join is the last character of its last part. */
  lemma {:induction false} JoinLast(parts: seq<string>)
    requires |parts| >= 2
    ensures Join(parts) == Join(parts[..|parts| - 1]) + "," + parts[|parts| - 1]
  {
    if |parts| > 2 {
      JoinLast(parts[1..]);
      assert parts[1..][..|parts| - 2] == parts[..|parts| - 1][1..];
    }
  }

  /** Joined comma-free fields with no whitespace at the two ends of the
      line are read back unchanged. */
  lemma JoinedFields(parts: seq<string>)
    requires |parts| >= 2
    requires forall i :: 0 <= i < |parts| ==> ',' !in parts[i]
    requires parts[0] != [] && !IsSpace(parts[0][0])
    requires parts[|parts| - 1] == [] || !IsSpace(parts[|parts| - 1][|parts[|parts| - 1]| - 1])
    ensures Fields(Join(parts)) == parts
  {
    var line := Join(parts);
    var last := parts[|parts| - 1];
    assert line[0] == parts[0][0] by {
      assert line == parts[0] + "," + Join(parts[1..]);
    }
    assert !IsSpace(line[|line| - 1]) by {
      JoinLast(parts);
      assert line == Join(parts[..|parts| - 1]) + "," + last;
    }
    StripNoop(line);
    SplitJoin(parts);
  }

  /** Writing an identifier and 25 comma-free answers as one line gives a line
      the validator accepts, from which the same identifier and answers are
      read back (the last answer may not end in whitespace, which `strip`
      would remove). */
  lemma RecordRoundTrip(id: string, answers: seq<string>)
    requires |id| == 9 && id[0] == 'N' && forall i :: 1 <= i < 9 ==> IsDigit(id[i])
    requires |answers| == 25
    requires forall i :: 0 <= i < 25 ==> ',' !in answers[i]
    requires answers[24] == [] || !IsSpace(answers[24][|answers[24]| - 1])
    ensures Validation(Join([id] + answers))
    ensures Id(Join([id] + answers)) == id
    ensures Answers(Join([id] + answers)) == answers
  {
    var parts := [id] + answers;
    assert ',' !in id by {
      assert forall i :: 0 <= i < 9 ==> id[i] != ',';
    }
    JoinedFields(parts);
    assert parts[1..] == answers;
    assert StartsWith(id, "N");
    assert IsDigits(id[1..]) by {
      assert forall i :: 0 <= i < 8 ==> id[1..][i] == id[i + 1];
    }
  }
}
