/** parse_ocr_text: segments the lines of an OCR'd page into numbered
    question/answer items. The text arrives already split into raw lines. */
module OcrParser {
  import opened Wrappers

  /** The characters Python's str.strip() removes by default. */
  predicate IsSpace(ch: char) {
    ch == ' ' || ('\t' <= ch <= '\r') || ('\U{001C}' <= ch <= '\U{001F}') ||
    ch == '\U{0085}' || ch == '\U{00A0}' || ch == '\U{1680}' ||
    ('\U{2000}' <= ch <= '\U{200A}') || ch == '\U{2028}' || ch == '\U{2029}' ||
    ch == '\U{202F}' || ch == '\U{205F}' || ch == '\U{3000}'
  }

  function TrimLeft(s: string): (t: string)
    ensures t == [] || !IsSpace(t[0])
  {
    if s != [] && IsSpace(s[0]) then TrimLeft(s[1..]) else s
  }

  function TrimRight(s: string): (t: string)
    ensures t == [] || !IsSpace(t[|t| - 1])
  {
    if s != [] && IsSpace(s[|s| - 1]) then TrimRight(s[..|s| - 1]) else s
  }

  /** str.strip(): s without its leading and trailing whitespace. */
  function Strip(s: string): string {
    TrimRight(TrimLeft(s))
  }

  /** A non-empty string that neither starts nor ends with whitespace. */
  predicate Stripped(s: string) {
    s != [] && !IsSpace(s[0]) && !IsSpace(s[|s| - 1])
  }

  /** Stripping gives the empty string or a stripped one. */
  lemma StripResult(s: string)
    ensures Strip(s) == [] || Stripped(Strip(s))
  {
    TrimRightPrefix(TrimLeft(s));
  }

  lemma {:induction false} TrimRightPrefix(s: string)
    ensures TrimRight(s) != [] ==> TrimRight(s)[0] == s[0]
  {
    if s != [] && IsSpace(s[|s| - 1]) {
      TrimRightPrefix(s[..|s| - 1]);
    }
  }

  /** A stripped string is left alone by strip. */
  lemma StripStripped(s: string)
    requires Stripped(s)
    ensures Strip(s) == s
  {
  }

  /** "\n".join(lines) */
  function Join(lines: seq<string>): string {
    if lines == [] then ""
    else if |lines| == 1 then lines[0]
    else Join(lines[..|lines| - 1]) + "\n" + lines[|lines| - 1]
  }

  /** Line 13 of the source: strip every raw line and drop the blank ones. */
  function Clean(raw: seq<string>): (r: seq<string>)
    ensures |r| <= |raw|
  {
    if raw == [] then []
    else (if Strip(raw[0]) != "" then [Strip(raw[0])] else []) + Clean(raw[1..])
  }

  /** A string is a cleaned line exactly when it is non-empty and is the
      stripped form of some raw line. */
  lemma {:induction false} CleanMembers(raw: seq<string>, x: string)
    ensures x in Clean(raw) <==> x != "" && exists k :: 0 <= k < |raw| && Strip(raw[k]) == x
  {
    if raw != [] {
      CleanMembers(raw[1..], x);
      if exists k :: 0 <= k < |raw[1..]| && Strip(raw[1..][k]) == x {
        var k :| 0 <= k < |raw[1..]| && Strip(raw[1..][k]) == x;
        assert Strip(raw[k + 1]) == x;
      }
      if exists k :: 0 <= k < |raw| && Strip(raw[k]) == x {
        var k :| 0 <= k < |raw| && Strip(raw[k]) == x;
        if k > 0 {
          assert Strip(raw[1..][k - 1]) == x;
        }
      }
    }
  }

  /** Cleaning keeps at most every line, and each kept line is stripped. */
  lemma {:induction false} CleanStripped(raw: seq<string>)
    ensures |Clean(raw)| <= |raw|
    ensures forall k :: 0 <= k < |Clean(raw)| ==> Stripped(Clean(raw)[k])
  {
    if raw != [] {
      StripResult(raw[0]);
      CleanStripped(raw[1..]);
    }
  }

  /** One question line with the answer lines that follow it. */
  datatype Block = Block(question: string, answers: seq<string>)

  /** An emitted item: a question with its answer, or the whole text when
      no question was recognised. */
  datatype Item = QA(id: int, question: string, answer: string) | Unknown(id: int, text: string)

  // ---------------------------------------------------------------------
  // Question lines

  /** A decimal digit: ASCII or fullwidth. */
  predicate IsDigit(ch: char) {
    ('0' <= ch <= '9') || ('\U{FF10}' <= ch <= '\U{FF19}')
  }

  /** The end of the run of digits in s that starts at position i. */
  function DigitsFrom(s: string, i: nat): (n: nat)
    requires i <= |s|
    ensures i <= n <= |s|
    ensures n < |s| ==> !IsDigit(s[n])
    decreases |s| - i
  {
    if i < |s| && IsDigit(s[i]) then DigitsFrom(s, i + 1) else i
  }

  /** What may follow the number of a numbered question: '．', '.', '、' or whitespace. */
  predicate IsNumberSeparator(ch: char) {
    ch == '\U{FF0E}' || ch == '.' || ch == '\U{3001}' || IsSpace(ch)
  }

  /** The pattern's tail, whitespace and then at least one character, matches
      s from position p: past some line feeds (whitespace that '.' does not
      match) there is a character other than a line feed. */
  predicate RestMatches(s: string, p: nat)
    decreases |s| - p
  {
    p < |s| && (s[p] != '\n' || RestMatches(s, p + 1))
  }

  /** The tail matches from p exactly when, past some line feeds, s has a
      character other than a line feed. */
  lemma {:induction false} RestMatchesMeaning(s: string, p: nat)
    ensures RestMatches(s, p) <==>
            exists i :: p <= i < |s| && s[i] != '\n' && forall j :: p <= j < i ==> s[j] == '\n'
    decreases |s| - p
  {
    if p < |s| && s[p] == '\n' {
      RestMatchesMeaning(s, p + 1);
      if exists i :: p <= i < |s| && s[i] != '\n' && forall j :: p <= j < i ==> s[j] == '\n' {
        var i :| p <= i < |s| && s[i] != '\n' && forall j :: p <= j < i ==> s[j] == '\n';
        assert i != p;
      }
    } else if p < |s| {
      assert p <= p < |s| && s[p] != '\n';
    }
  }

  /** The question pattern, matched at the start of a line, case-insensitively:
      a number followed by a separator, the keyword 题目 or 问题, the letter Q
      or q, or one of the marks 〇 and □, and then at least one more character.
      The digit run must be the whole leading number, since no separator is a
      digit. The optional whitespace, digits and colons after a keyword or mark
      may all be taken empty (RestMatchesEarlier). */
  predicate IsQuestionLine(s: string)
  {
    var n := DigitsFrom(s, 0);
    || (0 < n < |s| && IsNumberSeparator(s[n]) && RestMatches(s, n + 1))
    || (|s| >= 2 && IsKeyword(s[0], s[1]) && RestMatches(s, 2))
    || (s != [] && IsMarker(s[0]) && RestMatches(s, 1))
  }

  /** The shapes a question line can take: it opens with a digit, a marker or
      a keyword and has at least one more character that is not a line
      feed; and a marker, a keyword or a whole leading number with its separator,
      followed by such a character, always opens a question. */
  lemma QuestionLineForms(s: string)
    ensures IsQuestionLine(s) ==> |s| >= 2 && (IsDigit(s[0]) || IsMarker(s[0]) || IsKeyword(s[0], s[1]))
    ensures IsQuestionLine(s) ==> exists i :: 0 < i < |s| && s[i] != '\n'
    ensures |s| >= 2 && IsMarker(s[0]) && s[1] != '\n' ==> IsQuestionLine(s)
    ensures |s| >= 3 && IsKeyword(s[0], s[1]) && s[2] != '\n' ==> IsQuestionLine(s)
    ensures (0 < DigitsFrom(s, 0) && DigitsFrom(s, 0) + 1 < |s| && IsNumberSeparator(s[DigitsFrom(s, 0)]) &&
             s[DigitsFrom(s, 0) + 1] != '\n') ==> IsQuestionLine(s)
  {
    if IsQuestionLine(s) {
      var p := DigitsFrom(s, 0);
      var from := if 0 < p < |s| && IsNumberSeparator(s[p]) && RestMatches(s, p + 1) then p + 1
                  else if |s| >= 2 && IsKeyword(s[0], s[1]) && RestMatches(s, 2) then 2
                  else 1;
      RestMatchesMeaning(s, from);
    }
  }

  /** The keywords 题目 ("question") and 问题 ("problem"). */
  predicate IsKeyword(c0: char, c1: char) {
    (c0 == '\U{9898}' && c1 == '\U{76EE}') || (c0 == '\U{95EE}' && c1 == '\U{9898}')
  }

  /** The one-character markers: the letter Q in either case, 〇 and □. */
  predicate IsMarker(c: char) {
    c == 'Q' || c == 'q' || c == '\U{3007}' || c == '\U{25A1}'
  }

  /** If the tail matches from p, it matches from any earlier position: an
      optional part of a marker that is skipped leaves the tail to match it. */
  lemma {:induction false} RestMatchesEarlier(s: string, p: nat, q: nat)
    requires q <= p && RestMatches(s, p)
    ensures RestMatches(s, q)
    decreases p - q
  {
    if q < p && s[q] == '\n' {
      RestMatchesEarlier(s, p, q + 1);
    }
  }

  /** A bare number is not a question: the separator is missing. */
  lemma BareNumberNotQuestion(s: string)
    requires forall k :: 0 <= k < |s| ==> IsDigit(s[k])
    ensures !IsQuestionLine(s)
  {
    AllDigitsFrom(s, 0);
  }

  lemma {:induction false} AllDigitsFrom(s: string, i: nat)
    requires i <= |s|
    requires forall k :: i <= k < |s| ==> IsDigit(s[k])
    ensures DigitsFrom(s, i) == |s|
    decreases |s| - i
  {
    if i < |s| {
      AllDigitsFrom(s, i + 1);
    }
  }

  /** Any line of two or more characters that begins with the letter q, in
      either case, is a question: the marker's colon and number are optional,
      so an answer line such as "quite so" opens a new question. */
  lemma LetterQOpensQuestion(s: string)
    requires |s| >= 2 && (s[0] == 'q' || s[0] == 'Q') && s[1] != '\n'
    ensures IsQuestionLine(s)
  {
    assert RestMatches(s, 1);
  }

  /** A marker alone, with nothing after it, is not a question. */
  lemma MarkerAloneNotQuestion()
    ensures !IsQuestionLine("Q") && !IsQuestionLine("\U{9898}\U{76EE}") && !IsQuestionLine("1.")
  {
    assert DigitsFrom("1.", 1) == 1;
    assert !RestMatches("1.", 2);
  }

  // ---------------------------------------------------------------------
  // Specification

  /** The lines from the first question line on. */
  function FromFirstQuestion(lines: seq<string>): (r: seq<string>)
    ensures |r| <= |lines|
    ensures r == [] || IsQuestionLine(r[0])
  {
    if lines == [] then []
    else
      var front := FromFirstQuestion(lines[..|lines| - 1]);
      var x := lines[|lines| - 1];
      if front != [] then front + [x] else if IsQuestionLine(x) then [x] else []
  }

  /** The blocks once the line x follows: a question opens a new block, any
      other line joins the last one. */
  function BlocksAfter(bs: seq<Block>, x: string): seq<Block>
    requires |bs| > 0
  {
    if IsQuestionLine(x) then bs + [Block(x, [])]
    else bs[..|bs| - 1] + [Block(bs[|bs| - 1].question, bs[|bs| - 1].answers + [x])]
  }

  /** Cuts lines that start with a question line into blocks, each a question
      line and the answer lines up to the next question line. */
  function Blocks(xs: seq<string>): (bs: seq<Block>)
    requires xs == [] || IsQuestionLine(xs[0])
    ensures xs != [] ==> |bs| > 0
  {
    if xs == [] then []
    else if |xs| == 1 then [Block(xs[0], [])]
    else BlocksAfter(Blocks(xs[..|xs| - 1]), xs[|xs| - 1])
  }

  /** The blocks that have at least one answer line. */
  function Answered(bs: seq<Block>): seq<Block> {
    if bs == [] then []
    else Answered(bs[..|bs| - 1]) + (if bs[|bs| - 1].answers != [] then [bs[|bs| - 1]] else [])
  }

  /** The answer text of a block. */
  function AnswerText(answers: seq<string>): string {
    Strip(Join(answers))
  }

  /** The blocks as question/answer items numbered from 1. */
  function Numbered(bs: seq<Block>): (items: seq<Item>)
    ensures |items| == |bs|
  {
    if bs == [] then []
    else
      var n := |bs| - 1;
      Numbered(bs[..n]) + [QA(n + 1, bs[n].question, AnswerText(bs[n].answers))]
  }

  /** What the parse of cleaned lines gives: every block that has an answer,
      and the last block whether or not it has one, numbered from 1; when no
      line is a question, the whole text as one unknown item; nothing for no
      lines. */
  function ParseLines(lines: seq<string>): seq<Item> {
    var bs := Blocks(FromFirstQuestion(lines));
    if bs == [] then
      (if lines == [] then [] else [Unknown(1, Join(lines))])
    else
      Numbered(Answered(bs[..|bs| - 1]) + [bs[|bs| - 1]])
  }

  /** What parse_ocr_text returns for the raw lines of a text. */
  function ParseSpec(raw: seq<string>): seq<Item> {
    ParseLines(Clean(raw))
  }

  // ---------------------------------------------------------------------
  // The parser

  /** The parser's state after the lines P: nothing before the first
      question; afterwards the last block is the pending question with its
      answer lines, and every earlier block that has an answer is emitted. */
  ghost predicate Pending(P: seq<string>, currentQuestion: Option<string>,
                          currentAnswerLines: seq<string>, items: seq<Item>)
  {
    var F := FromFirstQuestion(P);
    var bs := Blocks(F);
    if F == [] then currentQuestion == None && currentAnswerLines == [] && items == []
    else
      && currentQuestion == Some(bs[|bs| - 1].question)
      && currentAnswerLines == bs[|bs| - 1].answers
      && items == Numbered(Answered(bs[..|bs| - 1]))
  }

  /** parse_ocr_text over the raw lines of the text. */
  method ParseOcrText(rawLines: seq<string>) returns (parsedItems: seq<Item>)
    ensures parsedItems == ParseSpec(rawLines)
  {
    if |rawLines| == 0 || forall k :: 0 <= k < |rawLines| ==> Strip(rawLines[k]) == "" {
      BlankClean(rawLines);
      return [];
    }
    var lines := Clean(rawLines);
    if |lines| == 0 {
      return [];
    }
    parsedItems := [];
    var currentQuestion: Option<string> := None;
    var currentAnswerLines: seq<string> := [];
    var itemIdCounter := 1;
    for i := 0 to |lines|
      invariant Pending(lines[..i], currentQuestion, currentAnswerLines, parsedItems)
      invariant itemIdCounter == |parsedItems| + 1
    {
      PrefixSnoc(lines, i);
      currentQuestion, currentAnswerLines, parsedItems, itemIdCounter :=
        ReadLine(lines[..i], lines[i], currentQuestion, currentAnswerLines, parsedItems, itemIdCounter);
    }
    PrefixWhole(lines);
    Finish(lines, currentQuestion, currentAnswerLines, parsedItems);
    if currentQuestion.Some? && currentAnswerLines != [] {
      parsedItems := parsedItems + [QA(itemIdCounter, currentQuestion.value, Strip(Join(currentAnswerLines)))];
    } else if currentQuestion.Some? && currentAnswerLines == [] {
      parsedItems := parsedItems + [QA(itemIdCounter, currentQuestion.value, "")];
    }
    if |parsedItems| == 0 && |lines| > 0 {
      parsedItems := [Unknown(1, Join(lines))];
    }
  }

  /** One pass of the loop: a question line first emits the pending
      question when it has answer lines and then becomes the pending
      question; any other line joins the pending question's answer, and is
      ignored before the first question. */
  method ReadLine(ghost P: seq<string>, line: string, currentQuestion: Option<string>,
                  currentAnswerLines: seq<string>, parsedItems: seq<Item>, itemIdCounter: int)
    returns (question: Option<string>, answerLines: seq<string>, items: seq<Item>, nextId: int)
    requires Pending(P, currentQuestion, currentAnswerLines, parsedItems)
    requires itemIdCounter == |parsedItems| + 1
    ensures Pending(P + [line], question, answerLines, items)
    ensures nextId == |items| + 1
  {
    question, answerLines, items, nextId := currentQuestion, currentAnswerLines, parsedItems, itemIdCounter;
    if IsQuestionLine(line) {
      if question.Some? && answerLines != [] {
        items := items + [QA(nextId, question.value, Strip(Join(answerLines)))];
        nextId := nextId + 1;
        answerLines := [];
      }
      question := Some(line);
    } else if question.Some? {
      answerLines := answerLines + [line];
    }
    PendingStep(P, line, currentQuestion, currentAnswerLines, parsedItems, question, answerLines, items);
  }

  lemma PrefixSnoc<T>(s: seq<T>, i: int)
    requires 0 <= i < |s|
    ensures s[..i + 1] == s[..i] + [s[i]]
  {
  }

  lemma PrefixWhole<T>(s: seq<T>)
    ensures s[..|s|] == s
  {
  }

  lemma {:induction false} BlankClean(raw: seq<string>)
    requires forall k :: 0 <= k < |raw| ==> Strip(raw[k]) == ""
    ensures Clean(raw) == []
  {
    if raw != [] {
      BlankClean(raw[1..]);
    }
  }

  /** One more line: the question lines found so far gain it, or it is the
      first question line, or nothing is found yet. */
  lemma FromFirstQuestionSnoc(P: seq<string>, x: string)
    ensures FromFirstQuestion(P + [x]) ==
            if FromFirstQuestion(P) != [] then FromFirstQuestion(P) + [x]
            else if IsQuestionLine(x) then [x] else []
  {
    assert (P + [x])[..|P|] == P;
  }

  lemma BlocksSnoc(xs: seq<string>, x: string)
    requires xs != [] && IsQuestionLine(xs[0])
    ensures Blocks(xs + [x]) == BlocksAfter(Blocks(xs), x)
  {
    assert (xs + [x])[..|xs|] == xs;
  }

  /** One line of the loop keeps the parser's state in step with the blocks. */
  lemma PendingStep(P: seq<string>, x: string, q0: Option<string>, a0: seq<string>, items0: seq<Item>,
                    q: Option<string>, a: seq<string>, items: seq<Item>)
    requires Pending(P, q0, a0, items0)
    requires IsQuestionLine(x) ==>
               q == Some(x) && a == [] &&
               items == if q0.Some? && a0 != [] then items0 + [QA(|items0| + 1, q0.value, Strip(Join(a0)))] else items0
    requires !IsQuestionLine(x) ==>
               items == items0 && q == q0 && a == if q0.Some? then a0 + [x] else a0
    ensures Pending(P + [x], q, a, items)
  {
    var F := FromFirstQuestion(P);
    FromFirstQuestionSnoc(P, x);
    if F != [] {
      BlocksSnoc(F, x);
      var bs := Blocks(F);
      var bs' := Blocks(F + [x]);
      var last := bs[|bs| - 1];
      if IsQuestionLine(x) {
        assert bs'[..|bs'| - 1] == bs;
        EmitStep(bs, items0, items);
      } else {
        assert bs'[..|bs'| - 1] == bs[..|bs| - 1];
      }
    } else if IsQuestionLine(x) {
      assert Blocks([x]) == [Block(x, [])];
    }
  }

  /** A question line closes the last block: it is emitted when it has an
      answer, with the next number. */
  lemma {:induction false} EmitStep(bs: seq<Block>, items0: seq<Item>, items: seq<Item>)
    requires |bs| > 0
    requires items0 == Numbered(Answered(bs[..|bs| - 1]))
    requires bs[|bs| - 1].answers != [] ==>
               items == items0 + [QA(|items0| + 1, bs[|bs| - 1].question, Strip(Join(bs[|bs| - 1].answers)))]
    requires bs[|bs| - 1].answers == [] ==> items == items0
    ensures items == Numbered(Answered(bs))
  {
    var last := bs[|bs| - 1];
    var done := Answered(bs[..|bs| - 1]);
    assert Answered(bs) == done + (if last.answers != [] then [last] else []);
    if last.answers != [] {
      NumberedSnoc(done, last);
    } else {
      assert done + [] == done;
    }
  }

  /** Emitting a block adds the next numbered item. */
  lemma NumberedSnoc(bs: seq<Block>, b: Block)
    ensures Numbered(bs + [b]) == Numbered(bs) + [QA(|bs| + 1, b.question, AnswerText(b.answers))]
  {
    assert (bs + [b])[..|bs|] == bs;
  }

  /** After the last line the pending question is emitted, with an empty
      answer when it has no answer lines, and with no question found the
      whole text is one unknown item. */
  lemma Finish(lines: seq<string>, q: Option<string>, a: seq<string>, items: seq<Item>)
    requires Pending(lines, q, a, items)
    ensures var out := if q.Some? then items + [QA(|items| + 1, q.value, if a != [] then Strip(Join(a)) else "")]
                       else items;
            (if out == [] && lines != [] then [Unknown(1, Join(lines))] else out) == ParseLines(lines)
  {
    var F := FromFirstQuestion(lines);
    if F != [] {
      var bs := Blocks(F);
      NumberedSnoc(Answered(bs[..|bs| - 1]), bs[|bs| - 1]);
    }
  }

  // ---------------------------------------------------------------------
  // Properties of the parse

  /** No line is a question line. */
  predicate NoQuestion(lines: seq<string>) {
    forall k :: 0 <= k < |lines| ==> !IsQuestionLine(lines[k])
  }

  /** How many lines are question lines. */
  function QuestionCount(lines: seq<string>): nat {
    if lines == [] then 0
    else QuestionCount(lines[..|lines| - 1]) + (if IsQuestionLine(lines[|lines| - 1]) then 1 else 0)
  }

  /** The blocks read back in order: each question line followed by its answer lines. */
  function Flatten(bs: seq<Block>): seq<string> {
    if bs == [] then []
    else Flatten(bs[..|bs| - 1]) + [bs[|bs| - 1].question] + bs[|bs| - 1].answers
  }

  /** FromFirstQuestion keeps a suffix of the lines and drops only
      non-question lines before it; it finds nothing exactly when there is no
      question line, and it keeps every question line. */
  lemma FromFirstQuestionFacts(lines: seq<string>)
    ensures FromFirstQuestion(lines) == lines[|lines| - |FromFirstQuestion(lines)|..]
    ensures NoQuestion(lines[..|lines| - |FromFirstQuestion(lines)|])
    ensures FromFirstQuestion(lines) == [] <==> NoQuestion(lines)
    ensures QuestionCount(FromFirstQuestion(lines)) == QuestionCount(lines)
  {
    FromFirstQuestionSuffix(lines);
    FromFirstQuestionCount(lines);
    var F := FromFirstQuestion(lines);
    if F != [] {
      assert lines[|lines| - |F|] == F[0];
    }
  }

  lemma {:induction false} FromFirstQuestionSuffix(lines: seq<string>)
    ensures FromFirstQuestion(lines) == lines[|lines| - |FromFirstQuestion(lines)|..]
    ensures NoQuestion(lines[..|lines| - |FromFirstQuestion(lines)|])
  {
    if lines == [] {
      assert lines[..0] == [];
    } else {
      var P := lines[..|lines| - 1];
      var x := lines[|lines| - 1];
      var F0 := FromFirstQuestion(P);
      var F := FromFirstQuestion(lines);
      FromFirstQuestionSuffix(P);
      assert lines == P + [x] by {
        PrefixSnoc(lines, |lines| - 1);
        PrefixWhole(lines);
      }
      if F0 != [] {
        var d := |P| - |F0|;
        assert F == F0 + [x];
        assert F == lines[|lines| - |F|..] && NoQuestion(lines[..|lines| - |F|]) by {
          SnocSlices(P, x, d);
          assert lines[..|lines| - |F|] == P[..d];
        }
      } else if IsQuestionLine(x) {
        assert F == [x];
        assert F == lines[|lines| - |F|..] && NoQuestion(lines[..|lines| - |F|]) by {
          SnocSlices(P, x, |P|);
          assert lines[..|lines| - |F|] == P;
        }
      } else {
        assert F == [];
        assert NoQuestion(lines) by {
          forall k | 0 <= k < |lines|
            ensures !IsQuestionLine(lines[k])
          {
            if k < |P| {
              assert lines[k] == P[k];
            }
          }
        }
        assert lines[..|lines| - |F|] == lines;
        assert NoQuestion(lines[..|lines| - |F|]);
      }
    }
  }

  lemma {:induction false} FromFirstQuestionCount(lines: seq<string>)
    ensures QuestionCount(FromFirstQuestion(lines)) == QuestionCount(lines)
  {
    if lines != [] {
      var P := lines[..|lines| - 1];
      var x := lines[|lines| - 1];
      var F0 := FromFirstQuestion(P);
      var F := FromFirstQuestion(lines);
      FromFirstQuestionCount(P);
      if F0 != [] {
        SnocSlices(F0, x, |F0|);
        assert F[..|F| - 1] == F0;
      } else if IsQuestionLine(x) {
        assert F == [x] && F[..0] == [];
      }
    }
  }

  /** Slicing a sequence extended by one element at a point inside the
      original sequence. */
  lemma SnocSlices<T>(s: seq<T>, x: T, n: int)
    requires 0 <= n <= |s|
    ensures (s + [x])[..n] == s[..n]
    ensures (s + [x])[n..] == s[n..] + [x]
  {
  }

  /** The blocks partition the lines they are cut from: read back in order
      they give those lines, every block opens with a question line, no
      answer line is one, and there is one block per question line. */
  lemma BlocksPartition(xs: seq<string>)
    requires xs == [] || IsQuestionLine(xs[0])
    ensures Flatten(Blocks(xs)) == xs
    ensures forall k :: 0 <= k < |Blocks(xs)| ==>
              IsQuestionLine(Blocks(xs)[k].question) && NoQuestion(Blocks(xs)[k].answers)
    ensures |Blocks(xs)| == QuestionCount(xs)
  {
    BlocksFlatten(xs);
    BlocksShape(xs);
  }

  lemma {:induction false} BlocksFlatten(xs: seq<string>)
    requires xs == [] || IsQuestionLine(xs[0])
    ensures Flatten(Blocks(xs)) == xs
  {
    if |xs| == 1 {
      assert Flatten(Blocks(xs)) == xs by {
        FlattenSnoc([], Block(xs[0], []));
        assert [] + [Block(xs[0], [])] == Blocks(xs);
      }
    } else if |xs| > 1 {
      var ys := xs[..|xs| - 1];
      var x := xs[|xs| - 1];
      BlocksFlatten(ys);
      assert Flatten(Blocks(xs)) == xs by {
        assert Blocks(xs) == BlocksAfter(Blocks(ys), x);
        FlattenAfter(Blocks(ys), x);
        PrefixSnoc(xs, |xs| - 1);
        PrefixWhole(xs);
      }
    }
  }

  /** A line added to the blocks is read back last. */
  lemma FlattenAfter(bs: seq<Block>, x: string)
    requires |bs| > 0
    ensures Flatten(BlocksAfter(bs, x)) == Flatten(bs) + [x]
  {
    var m := |bs|;
    var init, last := bs[..m - 1], bs[m - 1];
    PrefixSnoc(bs, m - 1);
    PrefixWhole(bs);
    FlattenSnoc(init, last);
    if IsQuestionLine(x) {
      FlattenSnoc(bs, Block(x, []));
    } else {
      FlattenSnoc(init, Block(last.question, last.answers + [x]));
      assert Flatten(BlocksAfter(bs, x)) == Flatten(init) + [last.question] + (last.answers + [x]);
    }
  }

  lemma FlattenSnoc(bs: seq<Block>, b: Block)
    ensures Flatten(bs + [b]) == Flatten(bs) + [b.question] + b.answers
  {
    assert (bs + [b])[..|bs|] == bs;
  }

  lemma {:induction false} BlocksShape(xs: seq<string>)
    requires xs == [] || IsQuestionLine(xs[0])
    ensures forall k :: 0 <= k < |Blocks(xs)| ==>
              IsQuestionLine(Blocks(xs)[k].question) && NoQuestion(Blocks(xs)[k].answers)
    ensures |Blocks(xs)| == QuestionCount(xs)
  {
    if |xs| == 1 {
      assert xs[..0] == [];
    } else if |xs| > 1 {
      var ys := xs[..|xs| - 1];
      var x := xs[|xs| - 1];
      BlocksShape(ys);
      var bs0 := Blocks(ys);
      var bs := Blocks(xs);
      var m := |bs0|;
      var last := bs0[m - 1];
      forall k | 0 <= k < |bs|
        ensures IsQuestionLine(bs[k].question) && NoQuestion(bs[k].answers)
      {
        if k < m - 1 || (k == m - 1 && IsQuestionLine(x)) {
          assert bs[k] == bs0[k];
        } else if k == m - 1 {
          assert bs[k] == Block(last.question, last.answers + [x]);
        }
      }
    }
  }

  /** The k-th item of a numbering. */
  lemma {:induction false} NumberedAt(bs: seq<Block>, k: int)
    requires 0 <= k < |bs|
    ensures Numbered(bs)[k] == QA(k + 1, bs[k].question, AnswerText(bs[k].answers))
    decreases |bs|
  {
    if k < |bs| - 1 {
      NumberedAt(bs[..|bs| - 1], k);
    }
  }

  /** Answered keeps only blocks that have answer lines, and every block
      that has some. */
  lemma {:induction false} AnsweredFacts(bs: seq<Block>)
    ensures |Answered(bs)| <= |bs|
    ensures forall k :: 0 <= k < |Answered(bs)| ==> Answered(bs)[k] in bs && Answered(bs)[k].answers != []
    ensures forall k :: 0 <= k < |bs| && bs[k].answers != [] ==> bs[k] in Answered(bs)
  {
    if bs != [] {
      AnsweredFacts(bs[..|bs| - 1]);
    }
  }

  /** Joining stripped lines with newlines gives a stripped string. */
  lemma {:induction false} JoinStripped(lines: seq<string>)
    requires lines != []
    requires forall k :: 0 <= k < |lines| ==> Stripped(lines[k])
    ensures Stripped(Join(lines))
  {
    if |lines| > 1 {
      JoinStripped(lines[..|lines| - 1]);
    }
  }

  /** The strip applied to a joined answer removes nothing: the answer text
      of cleaned lines is those lines joined with newlines, and it is empty
      exactly when there are no answer lines. */
  lemma AnswerTextOfCleanLines(answers: seq<string>)
    requires forall k :: 0 <= k < |answers| ==> Stripped(answers[k])
    ensures AnswerText(answers) == Join(answers)
    ensures AnswerText(answers) == "" <==> answers == []
  {
    if answers != [] {
      JoinStripped(answers);
      StripStripped(Join(answers));
    }
  }

  /** Blank text gives no items. */
  lemma BlankTextNoItems(raw: seq<string>)
    requires forall k :: 0 <= k < |raw| ==> Strip(raw[k]) == ""
    ensures ParseSpec(raw) == []
  {
    BlankClean(raw);
  }

  /** The result is one unknown item holding all the text exactly when there
      is text but no question line in it. */
  lemma UnknownFallback(raw: seq<string>)
    ensures var items := ParseSpec(raw);
            (exists k :: 0 <= k < |items| && items[k].Unknown?) <==>
            Clean(raw) != [] && NoQuestion(Clean(raw))
    ensures Clean(raw) != [] && NoQuestion(Clean(raw)) ==>
            ParseSpec(raw) == [Unknown(1, Join(Clean(raw)))]
  {
    var lines := Clean(raw);
    var F := FromFirstQuestion(lines);
    FromFirstQuestionFacts(lines);
    var items := ParseSpec(raw);
    if F != [] {
      var bs := Blocks(F);
      var kept := Answered(bs[..|bs| - 1]) + [bs[|bs| - 1]];
      forall k | 0 <= k < |items|
        ensures items[k].QA?
      {
        NumberedAt(kept, k);
      }
    } else if lines != [] {
      assert items[0].Unknown?;
    }
  }

  /** Items are numbered 1, 2, 3, ... in order. */
  lemma IdsConsecutive(raw: seq<string>)
    ensures forall k :: 0 <= k < |ParseSpec(raw)| ==> ParseSpec(raw)[k].id == k + 1
  {
    var lines := Clean(raw);
    var F := FromFirstQuestion(lines);
    var bs := Blocks(F);
    if bs != [] {
      var kept := Answered(bs[..|bs| - 1]) + [bs[|bs| - 1]];
      forall k | 0 <= k < |kept|
        ensures Numbered(kept)[k].id == k + 1
      {
        NumberedAt(kept, k);
      }
    }
  }

  /** With at least one question line there is at least one item and no
      more items than question lines. */
  lemma ItemCount(raw: seq<string>)
    requires !NoQuestion(Clean(raw))
    ensures 1 <= |ParseSpec(raw)| <= QuestionCount(Clean(raw))
  {
    var lines := Clean(raw);
    var F := FromFirstQuestion(lines);
    FromFirstQuestionFacts(lines);
    BlocksPartition(F);
    var bs := Blocks(F);
    AnsweredFacts(bs[..|bs| - 1]);
  }

  /** The question of every question/answer item is a whole cleaned line
      that is a question line, and every item but the last has a non-empty
      answer, since a question with no answer lines is dropped unless it is
      the last. The answer text itself is given by NumberedAt and
      AnswerTextOfCleanLines. */
  lemma ItemsAreBlocks(raw: seq<string>)
    ensures var items := ParseSpec(raw);
            forall k :: 0 <= k < |items| && items[k].QA? ==>
              IsQuestionLine(items[k].question) && items[k].question in Clean(raw) &&
              (k < |items| - 1 ==> items[k].answer != "")
  {
    CleanStripped(raw);
    var lines := Clean(raw);
    var F := FromFirstQuestion(lines);
    var bs := Blocks(F);
    var items := ParseSpec(raw);
    if bs != [] {
      var front := bs[..|bs| - 1];
      AnsweredFacts(front);
      var kept := Answered(front) + [bs[|bs| - 1]];
      assert items == Numbered(kept);
      forall k | 0 <= k < |items|
        ensures items[k].QA? && IsQuestionLine(items[k].question) && items[k].question in lines
        ensures k < |items| - 1 ==> items[k].answer != ""
      {
        NumberedAt(kept, k);
        var b := kept[k];
        assert b in bs by {
          if k < |kept| - 1 {
            assert b == Answered(front)[k] && b in front;
          }
        }
        var i :| 0 <= i < |bs| && bs[i] == b;
        BlockLines(lines, F, bs, i);
        AnswerTextOfCleanLines(b.answers);
        assert k < |kept| - 1 ==> b.answers != [] by {
          if k < |kept| - 1 {
            assert b == Answered(front)[k];
          }
        }
      }
    }
  }

  /** A block's question is a question line of the text and its answer
      lines are cleaned lines of the text. */
  lemma BlockLines(lines: seq<string>, F: seq<string>, bs: seq<Block>, i: int)
    requires forall k :: 0 <= k < |lines| ==> Stripped(lines[k])
    requires F == FromFirstQuestion(lines) && bs == Blocks(F)
    requires 0 <= i < |bs|
    ensures IsQuestionLine(bs[i].question) && bs[i].question in lines
    ensures forall k :: 0 <= k < |bs[i].answers| ==> Stripped(bs[i].answers[k])
  {
    FromFirstQuestionFacts(lines);
    BlocksPartition(F);
    FlattenMembers(bs, i);
    assert forall x :: x in F ==> x in lines;
    CleanLinesStripped(lines, bs[i].answers);
  }

  /** Every line of a block occurs in the flattened blocks. */
  lemma {:induction false} FlattenMembers(bs: seq<Block>, i: int)
    requires 0 <= i < |bs|
    ensures bs[i].question in Flatten(bs)
    ensures forall x :: x in bs[i].answers ==> x in Flatten(bs)
  {
    if i < |bs| - 1 {
      FlattenMembers(bs[..|bs| - 1], i);
    }
  }

  lemma CleanLinesStripped(lines: seq<string>, sub: seq<string>)
    requires forall k :: 0 <= k < |lines| ==> Stripped(lines[k])
    requires forall x :: x in sub ==> x in lines
    ensures forall k :: 0 <= k < |sub| ==> Stripped(sub[k])
  {
    forall k | 0 <= k < |sub|
      ensures Stripped(sub[k])
    {
      assert sub[k] in lines;
    }
  }
}
