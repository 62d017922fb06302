/** `get_answer_key`: reading an answer key from a header line that looks
    like a record. */
module HeaderKey {
  import opened Strings
  import opened Wrappers
  import opened Validator

  /** The answers of the first line joined back with commas, when that line
      has 26 fields and its first field starts with `N`; nothing otherwise
      (also for an empty file). */
  function GetAnswerKey(dataLines: seq<string>): Option<string> {
    if dataLines == [] then None
    else
      var firstLine := Fields(dataLines[0]);
      if |firstLine| == 26 && StartsWith(firstLine[0], "N") then Some(Join(firstLine[1..]))
      else None
  }

  lemma {:induction false} OccurrencesPositive(s: string, c: char)
    requires Occurrences(s, c) > 0
    ensures c in s
  {
    if s[0] != c {
      OccurrencesPositive(s[1..], c);
    }
  }

  /** For a line with 25 commas: the fields after the first, joined, are
      the line after its first comma, and the first field starts with `N`
      exactly when the line does. */
  lemma LineTail(line: string)
    requires Occurrences(line, ',') == 25
    ensures ',' in line
    ensures Join(Split(line)[1..]) == line[IndexOf(line, ',') + 1..]
    ensures Split(line)[1..] == Split(line[IndexOf(line, ',') + 1..])
    ensures StartsWith(Split(line)[0], "N") <==> StartsWith(line, "N")
  {
    OccurrencesPositive(line, ',');
    var i := IndexOf(line, ',');
    SplitAtFirstComma(line);
    JoinSplit(line[i + 1..]);
    if i == 0 {
      assert line[0] == ',';
    } else {
      assert Split(line)[0][0] == line[0];
    }
  }

  /** A key is found exactly when the stripped first line has 25 commas and
      starts with `N`; the key is then the stripped first line after its
      first comma, and it splits back into that line's 25 answers. */
  lemma HeaderKeyIsLineTail(dataLines: seq<string>)
    ensures GetAnswerKey(dataLines).Some? <==>
      dataLines != [] && Occurrences(Strip(dataLines[0]), ',') == 25 && StartsWith(Strip(dataLines[0]), "N")
    ensures GetAnswerKey(dataLines).Some? ==>
      var line := Strip(dataLines[0]);
      ',' in line
      && GetAnswerKey(dataLines).value == line[IndexOf(line, ',') + 1..]
      && Split(GetAnswerKey(dataLines).value) == Answers(dataLines[0])
      && |Split(GetAnswerKey(dataLines).value)| == 25
  {
    if dataLines != [] {
      var line := Strip(dataLines[0]);
      var parts := Fields(dataLines[0]);
      assert parts == Split(line);
      if Occurrences(line, ',') == 25 {
        LineTail(line);
        if StartsWith(line, "N") {
          assert GetAnswerKey(dataLines) == Some(Join(parts[1..]));
        } else {
          assert GetAnswerKey(dataLines) == None;
        }
      } else {
        assert |parts| != 26;
        assert GetAnswerKey(dataLines) == None;
      }
    }
  }

  /** A file whose first line is a valid record always yields a key. */
  lemma ValidFirstLineGivesKey(dataLines: seq<string>)
    requires dataLines != [] && Validation(dataLines[0])
    ensures GetAnswerKey(dataLines).Some?
    ensures |Split(GetAnswerKey(dataLines).value)| == 25
  {
    HeaderKeyIsLineTail(dataLines);
  }
}
