/**
 * `lib/quiz.ts`: the quiz stored with an expression is one string, a
 * question followed by option lines `A. …`, `B. …`, `C. …`.
 * `parseQuizQuestion` splits it into the question text and the options.
 */
module Quiz {
  import opened Common
  import opened Text

  /** One answer option: its `label` (`A`, `B` or `C`) and its text. */
  datatype QuizOption = QuizOption(letter: string, text: string)

  datatype ParsedQuiz = ParsedQuiz(question: string, options: seq<QuizOption>)

  /** What `.` in a JavaScript regular expression does not match. */
  predicate IsLineTerminator(c: char) {
    c == '\n' || c == '\r' || c == 0x2028 as char || c == 0x2029 as char
  }

  /** `(.*)`: the longest prefix without a line terminator. */
  function LineRest(s: string): (r: string)
    ensures r <= s
    ensures forall k :: 0 <= k < |r| ==> !IsLineTerminator(r[k])
    ensures |r| < |s| ==> IsLineTerminator(s[|r|])
    decreases |s|
  {
    if s == [] || IsLineTerminator(s[0]) then [] else [s[0]] + LineRest(s[1..])
  }

  predicate IsLabel(c: char) { 'A' <= c <= 'C' }

  /** `line.match(/^([A-C])\.\s+(.*)/)`.  The greedy `\s+` takes the whole
    * blank run (the `.*` after it matches in any case), and `.*` stops at the
    * first line terminator. */
  function OptionMatch(line: string): Option<QuizOption> {
    if |line| >= 3 && IsLabel(line[0]) && line[1] == '.' && IsSpace(line[2]) then
      var n := SpaceRun(line, 2);
      Some(QuizOption([line[0]], LineRest(line[2 + n..])))
    else None
  }

  /** `rawQuestion.split("\n").map((line) => line.trim())`. */
  function TrimmedLines(raw: string): seq<string> {
    var parts := Split(raw, "\n");
    seq(|parts|, k requires 0 <= k < |parts| => Trim(parts[k]))
  }

  /** A line that goes to the question text: not an option, not empty. */
  predicate IsQuestionLine(line: string) {
    OptionMatch(line).None? && |line| > 0
  }

  /** What one line adds to `options`. */
  function OptionPiece(line: string): seq<QuizOption> {
    match OptionMatch(line)
    case Some(o) => [o]
    case None => []
  }

  /** What one line adds to `questionText`. */
  function QuestionPiece(line: string): string {
    if IsQuestionLine(line) then line + " " else ""
  }

  /** The quiz as the source promises it: the question lines joined by single
    * spaces, and the options of the option lines in line order. */
  function Parsed(raw: string): ParsedQuiz {
    var lines := TrimmedLines(raw);
    ParsedQuiz(Join(Filter(lines, IsQuestionLine), " "), FlatMap(lines, OptionPiece))
  }

  /** `parseQuizQuestion`. */
  method ParseQuizQuestion(rawQuestion: string) returns (r: ParsedQuiz)
    ensures r == Parsed(rawQuestion)
  {
    var lines := TrimmedLines(rawQuestion);
    var questionText := "";
    var options: seq<QuizOption> := [];
    for i := 0 to |lines|
      invariant questionText == FlatMap(lines[..i], QuestionPiece)
      invariant options == FlatMap(lines[..i], OptionPiece)
    {
      var line := lines[i];
      var optionMatch := OptionMatch(line);
      if optionMatch.Some? {
        options := options + [optionMatch.value];
      } else if |line| > 0 {
        questionText := questionText + line + " ";
      }
      assert lines[..i + 1] == lines[..i] + [line];
      FlatMapSnoc(lines[..i], line, QuestionPiece);
      FlatMapSnoc(lines[..i], line, OptionPiece);
    }
    assert lines[..|lines|] == lines;
    TrimmedLinesTrimmed(rawQuestion);
    QuestionTextTrimmed(lines);
    r := ParsedQuiz(Trim(questionText), options);
  }

  // ------------------------------------------------------------ the lines

  /** Neither starts nor ends with a blank. */
  predicate Trimmed(s: string) {
    s == [] || (!IsSpace(s[0]) && !IsSpace(s[|s| - 1]))
  }

  lemma TrimmedLinesTrimmed(raw: string)
    ensures forall k :: 0 <= k < |TrimmedLines(raw)| ==> Trimmed(TrimmedLines(raw)[k])
  {
    var parts := Split(raw, "\n");
    forall k | 0 <= k < |parts| ensures Trimmed(Trim(parts[k])) {
      TrimShape(parts[k]);
    }
  }

  /** The loop's `questionText` is the question lines, each followed by one
    * space. */
  lemma {:induction false} QuestionTextShape(lines: seq<string>)
    ensures var q := Filter(lines, IsQuestionLine);
      FlatMap(lines, QuestionPiece) == (if q == [] then "" else Join(q, " ") + " ")
    decreases |lines|
  {
    if lines != [] {
      var init := lines[..|lines| - 1];
      var line := lines[|lines| - 1];
      QuestionTextShape(init);
      var q := Filter(init, IsQuestionLine);
      assert FlatMap(lines, QuestionPiece) == FlatMap(init, QuestionPiece) + QuestionPiece(line);
      assert Filter(lines, IsQuestionLine) == q + (if IsQuestionLine(line) then [line] else []);
      if !IsQuestionLine(line) {
        assert q + [] == q;
        assert FlatMap(init, QuestionPiece) + "" == FlatMap(init, QuestionPiece);
      } else if q == [] {
        assert q + [line] == [line];
      } else {
        JoinSnoc(q, line, " ");
        Assoc(Join(q, " ") + " ", line, " ");
      }
    }
  }

  /** Joining non-empty pieces starts with the first piece's first character
    * and ends with the last piece's last character. */
  lemma {:induction false} JoinEnds(xs: seq<string>, sep: string)
    requires |xs| > 0
    requires forall k :: 0 <= k < |xs| ==> xs[k] != []
    ensures var j := Join(xs, sep);
      |j| > 0 && j[0] == xs[0][0] && j[|j| - 1] == xs[|xs| - 1][|xs[|xs| - 1]| - 1]
    decreases |xs|
  {
    if |xs| > 1 {
      var init := xs[..|xs| - 1];
      JoinEnds(init, sep);
    }
  }

  /** `trim()` takes the last space off joined trimmed lines. */
  lemma TrimAfterJoin(j: string)
    requires |j| > 0 && !IsSpace(j[0]) && !IsSpace(j[|j| - 1])
    ensures Trim(j + " ") == j
  {
    var s := j + " ";
    assert TrimStart(s) == s;
    assert s[..|s| - 1] == j;
    assert TrimEnd(j) == j;
  }

  /** For trimmed lines, the trimmed `questionText` is the question lines
    * joined by single spaces. */
  lemma QuestionTextTrimmed(lines: seq<string>)
    requires forall k :: 0 <= k < |lines| ==> Trimmed(lines[k])
    ensures Trim(FlatMap(lines, QuestionPiece)) == Join(Filter(lines, IsQuestionLine), " ")
  {
    QuestionTextShape(lines);
    var q := Filter(lines, IsQuestionLine);
    if q != [] {
      forall k | 0 <= k < |q| ensures q[k] != [] && Trimmed(q[k]) {
        FilterMember(lines, IsQuestionLine, q[k]);
      }
      JoinEnds(q, " ");
      TrimAfterJoin(Join(q, " "));
    }
  }

  // ------------------------------------------------------------ the options

  /** An option's letter is always one of `A`, `B`, `C`, and its text carries
    * no line terminator and does not start with a blank. */
  lemma OptionShape(line: string)
    requires OptionMatch(line).Some?
    ensures var o := OptionMatch(line).value;
      o.letter in ["A", "B", "C"] && line[..1] == o.letter && line[1] == '.'
      && (o.text == [] || !IsSpace(o.text[0]))
      && forall k :: 0 <= k < |o.text| ==> !IsLineTerminator(o.text[k])
  {
    var o := OptionMatch(line).value;
    var rest := line[2 + SpaceRun(line, 2)..];
    if o.text != [] {
      assert o.text[0] == rest[0];
    }
    assert line[..1] == [line[0]];
  }

  /** A line whose first character is not `A`, `B` or `C` (say `D. x`) is
    * not an option. */
  lemma OtherLabelIsNoOption(line: string)
    requires |line| > 0 && !IsLabel(line[0])
    ensures OptionMatch(line) == None
    ensures IsQuestionLine(line)
  {
  }

  /** Blank lines add nothing to the question. */
  lemma BlankLinesIgnored(lines: seq<string>, line: string)
    requires forall k :: 0 <= k < |line| ==> IsSpace(line[k])
    ensures Filter(lines + [Trim(line)], IsQuestionLine) == Filter(lines, IsQuestionLine)
  {
    assert Trim(line) == [] by {
      TrimShape(line);
    }
    FilterSnoc(lines, [], IsQuestionLine);
  }

  /** The options are exactly the matches of the option lines. */
  lemma OptionsAreMatches(lines: seq<string>, o: QuizOption)
    ensures o in FlatMap(lines, OptionPiece) <==>
      exists k :: 0 <= k < |lines| && OptionMatch(lines[k]) == Some(o)
  {
    FlatMapMember(lines, OptionPiece, o);
  }

  lemma {:induction false} LineRestWhole(s: string)
    requires forall k :: 0 <= k < |s| ==> !IsLineTerminator(s[k])
    ensures LineRest(s) == s
    decreases |s|
  {
    if s != [] {
      LineRestWhole(s[1..]);
    }
  }

  /** An option line written as letter, full stop, blanks and text parses back
    * to that letter and text. */
  lemma OptionLineRoundTrip(letter: char, blank: string, text: string)
    requires IsLabel(letter)
    requires |blank| > 0 && forall k :: 0 <= k < |blank| ==> IsSpace(blank[k])
    requires text == [] || !IsSpace(text[0])
    requires forall k :: 0 <= k < |text| ==> !IsLineTerminator(text[k])
    ensures OptionMatch([letter, '.'] + blank + text) == Some(QuizOption([letter], text))
  {
    var line := [letter, '.'] + blank + text;
    SpaceRunIs(line, 2, |blank|);
    assert line[2 + |blank|..] == text;
    LineRestWhole(text);
  }

  // ------------------------------------------------------------ round trip

  /** The line an option is stored as. */
  function FormatOption(o: QuizOption): string {
    o.letter + ". " + o.text
  }

  function FormatOptions(opts: seq<QuizOption>): seq<string> {
    seq(|opts|, k requires 0 <= k < |opts| => FormatOption(opts[k]))
  }

  /** The lines of the stored form: question, a blank line, then one line
    * per option. */
  function StoredLines(question: string, opts: seq<QuizOption>): seq<string> {
    [question, ""] + FormatOptions(opts)
  }

  function FormatQuiz(question: string, opts: seq<QuizOption>): string {
    Join(StoredLines(question, opts), "\n")
  }

  /** A line that comes back unchanged from `split("\n")` and `trim()`. */
  predicate StoredLine(s: string) {
    Trimmed(s) && '\n' !in s
  }

  predicate WellFormedOption(o: QuizOption) {
    o.letter in ["A", "B", "C"] && o.text != [] && Trimmed(o.text)
    && forall k :: 0 <= k < |o.text| ==> !IsLineTerminator(o.text[k])
  }

  predicate WellFormedQuestion(q: string) {
    q != [] && StoredLine(q) && OptionMatch(q).None?
  }

  /** A formatted option line is trimmed, has no newline, is an option and
    * parses back to the option. */
  lemma FormatOptionParses(o: QuizOption)
    requires WellFormedOption(o)
    ensures var line := FormatOption(o);
      StoredLine(line) && OptionPiece(line) == [o] && !IsQuestionLine(line)
  {
    FormatOptionClean(o);
    var c := o.letter[0];
    assert o.letter == [c];
    assert FormatOption(o) == [c, '.'] + " " + o.text;
    OptionLineRoundTrip(c, " ", o.text);
  }

  lemma FormatOptionClean(o: QuizOption)
    requires WellFormedOption(o)
    ensures StoredLine(FormatOption(o))
  {
    var c := o.letter[0];
    var line := FormatOption(o);
    var head := [c, '.', ' '];
    assert o.letter == [c];
    assert line == head + o.text;
    assert line[0] == c && line[|line| - 1] == o.text[|o.text| - 1];
    assert '\n' !in o.text by {
      assert forall k :: 0 <= k < |o.text| ==> o.text[k] != '\n';
    }
    assert '\n' !in head;
  }

  lemma {:induction false} FormatOptionsParse(opts: seq<QuizOption>)
    requires forall k :: 0 <= k < |opts| ==> WellFormedOption(opts[k])
    ensures FlatMap(FormatOptions(opts), OptionPiece) == opts
    ensures Filter(FormatOptions(opts), IsQuestionLine) == []
    decreases |opts|
  {
    if opts != [] {
      var init := opts[..|opts| - 1];
      var o := opts[|opts| - 1];
      assert opts == init + [o];
      var prev := FormatOptions(init);
      var line := FormatOption(o);
      assert FormatOptions(opts) == prev + [line];
      FormatOptionsParse(init);
      FormatOptionParses(o);
      FlatMapSnoc(prev, line, OptionPiece);
      FilterSnoc(prev, line, IsQuestionLine);
    }
  }

  /** Parsing the stored form of a well-formed quiz gives it back. */
  lemma FormatRoundTrip(q: string, opts: seq<QuizOption>)
    requires WellFormedQuestion(q)
    requires forall k :: 0 <= k < |opts| ==> WellFormedOption(opts[k])
    ensures Parsed(FormatQuiz(q, opts)) == ParsedQuiz(q, opts)
  {
    var head := [q, ""];
    var tail := FormatOptions(opts);
    FormattedLines(q, opts);
    FormatOptionsParse(opts);
    HeadParts(q);
    FilterAppend(head, tail, IsQuestionLine);
    FlatMapAppend(head, tail, OptionPiece);
    assert [q] + [] == [q];
    assert [] + opts == opts;
  }

  /** The stored form splits back into its trimmed lines. */
  lemma FormattedLines(q: string, opts: seq<QuizOption>)
    requires WellFormedQuestion(q)
    requires forall k :: 0 <= k < |opts| ==> WellFormedOption(opts[k])
    ensures TrimmedLines(FormatQuiz(q, opts)) == StoredLines(q, opts)
  {
    var lines := StoredLines(q, opts);
    StoredLinesClean(q, opts);
    JoinSplitChar(lines, '\n');
    forall k | 0 <= k < |lines| ensures Trim(lines[k]) == lines[k] {
      TrimOfTrimmed(lines[k]);
    }
  }

  lemma StoredLinesClean(q: string, opts: seq<QuizOption>)
    requires WellFormedQuestion(q)
    requires forall k :: 0 <= k < |opts| ==> WellFormedOption(opts[k])
    ensures forall k :: 0 <= k < |StoredLines(q, opts)| ==> StoredLine(StoredLines(q, opts)[k])
  {
    var tail := FormatOptions(opts);
    var lines := StoredLines(q, opts);
    forall k | 0 <= k < |lines| ensures StoredLine(lines[k]) {
      if k >= 2 {
        assert lines[k] == FormatOption(opts[k - 2]);
        FormatOptionClean(opts[k - 2]);
      }
    }
  }

  /** The question line goes to the question, the blank line nowhere. */
  lemma HeadParts(q: string)
    requires WellFormedQuestion(q)
    ensures Filter([q, ""], IsQuestionLine) == [q]
    ensures FlatMap([q, ""], OptionPiece) == []
  {
    assert [q, ""] == [q] + [""];
    assert [q] == [] + [q];
    FilterSnoc([q], "", IsQuestionLine);
    FilterSnoc([], q, IsQuestionLine);
    FlatMapSnoc([q], "", OptionPiece);
    FlatMapSnoc([], q, OptionPiece);
  }
}
