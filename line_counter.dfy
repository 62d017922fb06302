/** `analyze_data`: counting the valid and invalid lines of a file, in both
    source files (the printing of invalid lines and of the report is left
    out). */
module LineCounter {
  import opened Validator

  /** Number of lines `validation` accepts. */
  function CountValid(lines: seq<string>): (r: nat)
    ensures r <= |lines|
  {
    if lines == [] then 0
    else CountValid(lines[..|lines| - 1]) + (if Validation(lines[|lines| - 1]) then 1 else 0)
  }

  lemma {:induction false} CountValidAppend(a: seq<string>, b: seq<string>)
    ensures CountValid(a + b) == CountValid(a) + CountValid(b)
  {
    if b == [] {
      assert a + b == a;
    } else {
      assert (a + b)[..|a + b| - 1] == a + b[..|b| - 1];
      CountValidAppend(a, b[..|b| - 1]);
    }
  }

  /** The number of valid lines does not depend on the order of the lines. */
  lemma {:induction false} CountValidPermutation(a: seq<string>, b: seq<string>)
    requires multiset(a) == multiset(b)
    ensures CountValid(a) == CountValid(b)
    decreases |a|
  {
    if a == [] {
      assert |b| == |multiset(b)| == 0;
    } else {
      var n := |a| - 1;
      var x := a[n];
      assert a == a[..n] + [x];
      assert x in multiset(b);
      var i :| 0 <= i < |b| && b[i] == x;
      var rest := b[..i] + b[i + 1..];
      assert b == b[..i] + [x] + b[i + 1..];
      assert multiset(a[..n]) == multiset(a) - multiset{x};
      assert multiset(rest) == multiset(b) - multiset{x};
      CountValidPermutation(a[..n], rest);
      CountValidAppend(b[..i] + [x], b[i + 1..]);
      CountValidAppend(b[..i], [x]);
      CountValidAppend(b[..i], b[i + 1..]);
      assert CountValid([x]) == if Validation(x) then 1 else 0 by {
        assert [x][..0] == [];
      }
    }
  }

  /** `analyze_data` of lastname_firstname_grade_the_exams.py. */
  method AnalyzeData(dataLines: seq<string>) returns (validLines: nat, invalidLines: nat)
    ensures validLines == CountValid(dataLines)
    ensures validLines + invalidLines == |dataLines|
  {
    validLines, invalidLines := 0, 0;
    for k := 0 to |dataLines|
      invariant validLines == CountValid(dataLines[..k])
      invariant validLines + invalidLines == k
    {
      assert dataLines[..k + 1][..k] == dataLines[..k];
      if Validation(dataLines[k]) {
        validLines := validLines + 1;
      } else {
        invalidLines := invalidLines + 1;
      }
    }
    assert dataLines[..|dataLines|] == dataLines;
  }

  /** `analyze_data` of student_grading_grogramm.py, which calls that file's
      early-return `validation`; it reports the same counts. */
  method AnalyzeDataGuarded(dataLines: seq<string>) returns (validLines: nat, invalidLines: nat)
    ensures validLines == CountValid(dataLines)
    ensures validLines + invalidLines == |dataLines|
  {
    validLines, invalidLines := 0, 0;
    for k := 0 to |dataLines|
      invariant validLines == CountValid(dataLines[..k])
      invariant validLines + invalidLines == k
    {
      assert dataLines[..k + 1][..k] == dataLines[..k];
      ValidationFormsAgree(dataLines[k]);
      if GuardedValidation(dataLines[k]) {
        validLines := validLines + 1;
      } else {
        invalidLines := invalidLines + 1;
      }
    }
    assert dataLines[..|dataLines|] == dataLines;
  }
}
