/**
 * The question parsers of app.py: `parse_single_mcq` (app.py:106-140) and its
 * group-1 wrapper `parse_group1_mcq` (app.py:143-156), `parse_order_question`
 * (app.py:241-269) and `parse_gender_block` (app.py:272-293). A block is the
 * sequence of its lines; every parser first strips the lines and drops blank ones.
 */
module Parsers {
  import opened Wrappers
  import opened Text
  import opened Seqs
  import opened Patterns

  /** A single-choice question: stem, options by label, and the answer letter. */
  datatype Mcq = Mcq(stem: string, options: map<char, string>, answer: char)

  /** An ordering question: the fixed prompt and the items in their correct order. */
  datatype Order = Order(prompt: string, items: seq<string>)

  /** One statement of a speaker question, with the speaker it belongs to. */
  datatype GenderItem = GenderItem(stem: string, gender: string)

  /** How `parse_single_mcq` reads one line: the answer pattern first, then the option pattern. */
  datatype LineKind =
    | AnswerLine(value: string)
    | OptionLine(letter: char, text: string)
    | StemLine

  function Classify(line: string): (k: LineKind)
    ensures k.OptionLine? ==> 'A' <= k.letter <= 'D'
  {
    match AnswerRest(line)
    case Some(v) => AnswerLine(v)
    case None =>
      match OptionMatch(line)
      case Some(m) => OptionLine(m.0, m.1)
      case None => StemLine
  }

  /** The kind of every line. */
  function Kinds(lines: seq<string>): (ks: seq<LineKind>)
    ensures |ks| == |lines|
    ensures forall i :: 0 <= i < |lines| ==> ks[i] == Classify(lines[i])
  {
    seq(|lines|, i requires 0 <= i < |lines| => Classify(lines[i]))
  }

  /** An answer line whose stripped remainder is not blank: the only kind that sets the answer. */
  predicate GivesAnswer(k: LineKind) {
    k.AnswerLine? && k.value != []
  }

  /** The answer the lines leave behind: the upper-cased first character of the last non-blank answer. */
  function AnswerIn(ks: seq<LineKind>): Option<char>
  {
    if ks == [] then None
    else if GivesAnswer(ks[|ks| - 1]) then Some(Upper(ks[|ks| - 1].value[0]))
    else AnswerIn(ks[..|ks| - 1])
  }

  /** The options dictionary the lines leave behind: each option line overwrites its label. */
  function OptionsIn(ks: seq<LineKind>): map<char, string>
  {
    if ks == [] then map[]
    else
      var m := OptionsIn(ks[..|ks| - 1]);
      var k := ks[|ks| - 1];
      if k.OptionLine? then m[k.letter := k.text] else m
  }

  predicate IsStemLine(line: string) {
    Classify(line).StemLine?
  }

  /** The stem: the lines that are neither answer nor option lines, joined and stripped. */
  function StemOf(lines: seq<string>): string
  {
    Strip(JoinLines(Keep(lines, IsStemLine)))
  }

  /** The question the kinds of a block's lines describe, given its stem; none without an answer or an option. */
  function McqFrom(ks: seq<LineKind>, stem: string): Option<Mcq>
  {
    if AnswerIn(ks).None? || OptionsIn(ks) == map[] then None
    else Some(Mcq(stem, OptionsIn(ks), AnswerIn(ks).value))
  }

  /** What `parse_single_mcq` returns for `lines`. */
  function McqOf(lines: seq<string>): Option<Mcq>
  {
    McqFrom(Kinds(lines), StemOf(lines))
  }

  /** What one more line does to the stem lines, the options and the answer. */
  lemma ScanStep(lines: seq<string>, i: nat)
    requires i < |lines|
    ensures var ks := Kinds(lines);
            var k := Classify(lines[i]);
            && Keep(lines[..i + 1], IsStemLine) == Keep(lines[..i], IsStemLine) + (if k.StemLine? then [lines[i]] else [])
            && OptionsIn(ks[..i + 1]) == (if k.OptionLine? then OptionsIn(ks[..i])[k.letter := k.text] else OptionsIn(ks[..i]))
            && AnswerIn(ks[..i + 1]) == (if GivesAnswer(k) then Some(Upper(k.value[0])) else AnswerIn(ks[..i]))
  {
    var ks := Kinds(lines);
    KeepStep(lines, i, IsStemLine);
    SliceSnoc(ks, i);
    assert ks[..i + 1][..i] == ks[..i];
  }

  /** The loop of `parse_single_mcq` over the lines of one question. */
  method ScanLines(lines: seq<string>) returns (stemLines: seq<string>, options: map<char, string>, answer: Option<char>)
    ensures stemLines == Keep(lines, IsStemLine)
    ensures options == OptionsIn(Kinds(lines))
    ensures answer == AnswerIn(Kinds(lines))
  {
    ghost var ks := Kinds(lines);
    stemLines, options, answer := [], map[], None;
    for i := 0 to |lines|
      invariant stemLines == Keep(lines[..i], IsStemLine)
      invariant options == OptionsIn(ks[..i])
      invariant answer == AnswerIn(ks[..i])
    {
      var line := lines[i];
      ScanStep(lines, i);
      // the answer pattern first, then the option pattern, else a stem line
      match Classify(line)
      case AnswerLine(rawAns) =>
        if rawAns != [] {
          answer := Some(Upper(rawAns[0]));
        }
      case OptionLine(letter, txt) =>
        options := options[letter := txt];
      case StemLine =>
        stemLines := stemLines + [line];
    }
    SliceAll(lines);
    SliceAll(ks);
  }

  /** `parse_single_mcq`: no question without an answer or an option. */
  method ParseSingleMcq(lines: seq<string>) returns (r: Option<Mcq>)
    ensures r == McqOf(lines)
  {
    var stemLines, options, answer := ScanLines(lines);
    if answer.None? || options == map[] {
      return None;
    }
    var stem := Strip(JoinLines(stemLines));
    return Some(Mcq(stem, options, answer.value));
  }

  /**
   * The answer is missing exactly when no line gives one; otherwise it comes from the
   * last line that gives one.
   */
  lemma {:induction false} AnswerInLast(ks: seq<LineKind>)
    ensures AnswerIn(ks).None? <==> forall i :: 0 <= i < |ks| ==> !GivesAnswer(ks[i])
    ensures forall i :: 0 <= i < |ks| && GivesAnswer(ks[i]) && (forall j :: i < j < |ks| ==> !GivesAnswer(ks[j])) ==>
              AnswerIn(ks) == Some(Upper(ks[i].value[0]))
  {
    if ks != [] {
      var n := |ks| - 1;
      var init := ks[..n];
      AnswerInLast(init);
      assert forall i :: 0 <= i < n ==> init[i] == ks[i];
      if GivesAnswer(ks[n]) {
        assert AnswerIn(ks) == Some(Upper(ks[n].value[0]));
        forall i | 0 <= i < |ks| && GivesAnswer(ks[i]) && (forall j :: i < j < |ks| ==> !GivesAnswer(ks[j]))
          ensures i == n
        {
        }
      } else {
        assert AnswerIn(ks) == AnswerIn(init);
        assert (forall i :: 0 <= i < |ks| ==> !GivesAnswer(ks[i])) <==> (forall i :: 0 <= i < n ==> !GivesAnswer(init[i]));
      }
    }
  }

  /**
   * A label has an option exactly when some option line names it, and its text is the
   * text of the last option line naming it.
   */
  lemma {:induction false} OptionsInLast(ks: seq<LineKind>)
    ensures forall l :: l in OptionsIn(ks) <==> exists i :: 0 <= i < |ks| && ks[i].OptionLine? && ks[i].letter == l
    ensures forall i :: 0 <= i < |ks| && ks[i].OptionLine? &&
                        (forall j :: i < j < |ks| ==> !(ks[j].OptionLine? && ks[j].letter == ks[i].letter)) ==>
              OptionsIn(ks)[ks[i].letter] == ks[i].text
  {
    if ks != [] {
      var init := ks[..|ks| - 1];
      OptionsInLast(init);
      assert forall i :: 0 <= i < |init| ==> init[i] == ks[i];
      forall l | l in OptionsIn(ks)
        ensures exists i :: 0 <= i < |ks| && ks[i].OptionLine? && ks[i].letter == l
      {
        if l !in OptionsIn(init) {
          assert ks[|ks| - 1].OptionLine? && ks[|ks| - 1].letter == l;
        }
      }
    }
  }

  /**
   * `parse_single_mcq` fails exactly when no line gives a non-blank answer or no line is an
   * option line (the option letters of `Kinds` are in A-D, as the requirement asks). Otherwise the answer comes from the last answer line, every option label
   * is in A-D and was named by some line, and each label keeps the text of its last line.
   */
  lemma McqFromSpec(ks: seq<LineKind>, stem: string)
    requires forall i :: 0 <= i < |ks| && ks[i].OptionLine? ==> 'A' <= ks[i].letter <= 'D'
    ensures McqFrom(ks, stem).None? <==>
              (forall i :: 0 <= i < |ks| ==> !GivesAnswer(ks[i])) ||
              (forall i :: 0 <= i < |ks| ==> !ks[i].OptionLine?)
    ensures McqFrom(ks, stem).Some? ==>
              var q := McqFrom(ks, stem).value;
              && q.stem == stem
              && (forall l :: l in q.options ==>
                    && 'A' <= l <= 'D'
                    && exists i :: 0 <= i < |ks| && ks[i].OptionLine? && ks[i].letter == l)
              && (forall i ::
                    (0 <= i < |ks| && GivesAnswer(ks[i]) && forall j :: i < j < |ks| ==> !GivesAnswer(ks[j]))
                    ==> q.answer == Upper(ks[i].value[0]))
              && (forall i ::
                    (0 <= i < |ks| && ks[i].OptionLine? &&
                     forall j :: i < j < |ks| ==> !(ks[j].OptionLine? && ks[j].letter == ks[i].letter))
                    ==> ks[i].letter in q.options && q.options[ks[i].letter] == ks[i].text)
  {
    AnswerInLast(ks);
    OptionsInLast(ks);
    if (forall i :: 0 <= i < |ks| ==> !ks[i].OptionLine?) {
      assert OptionsIn(ks).Keys == {};
    }
  }

  /**
   * The answer letter need not name one of the options: an option line for A followed
   * by an answer line whose value is "E" make a question whose answer E has no option.
   */
  lemma AnswerNeedNotBeOption()
    ensures var q := McqFrom([OptionLine('A', "x"), AnswerLine("E")], "");
            q.Some? && q.value.answer == 'E' && q.value.options == map['A' := "x"] && 'E' !in q.value.options
  {
    var ks := [OptionLine('A', "x"), AnswerLine("E")];
    assert ks[..1] == [OptionLine('A', "x")] && ks[..1][..0] == [];
    assert OptionsIn(ks[..1]) == map['A' := "x"];
    assert OptionsIn(ks) == map['A' := "x"];
    assert Upper('E') == 'E';
    assert AnswerIn(ks) == Some('E');
    assert 'A' in OptionsIn(ks);
  }

  /** `[l.strip() for l in block.splitlines() if l.strip()]`, one line at a time. */
  function CleanLine(line: string): Option<string>
  {
    if Strip(line) == [] then None else Some(Strip(line))
  }

  /** The stripped, non-blank lines of a block, in order. */
  function CleanLines(block: seq<string>): seq<string>
  {
    Choose(block, CleanLine)
  }

  /**
   * The block without its first line when that line is a question header: a suffix of
   * the lines at most one shorter, and shorter exactly when the first line is a header.
   */
  function DropHeader(lines: seq<string>): (r: seq<string>)
    ensures |lines| - 1 <= |r| <= |lines| && r == lines[|lines| - |r|..]
    ensures |r| < |lines| <==> lines != [] && IsHeader(lines[0])
  {
    if lines != [] && IsHeader(lines[0]) then lines[1..] else lines
  }

  /** `parse_group1_mcq`: a single-choice question after its header line. */
  function Group1Of(block: seq<string>): Option<Mcq>
  {
    var lines := DropHeader(CleanLines(block));
    if lines == [] then None else McqOf(lines)
  }

  /** `parse_group1_mcq` as the source runs it: clean, drop the header, then `parse_single_mcq`. */
  method ParseGroup1(block: seq<string>) returns (r: Option<Mcq>)
    ensures r == Group1Of(block)
  {
    var lines := CleanLines(block);
    if lines != [] && IsHeader(lines[0]) {
      lines := lines[1..];
    }
    if lines == [] {
      return None;
    }
    r := ParseSingleMcq(lines);
  }

  const OrderPrompt: string := "Sắp xếp các mục sau theo đúng thứ tự:"

  predicate NotAnswerLine(line: string) {
    AnswerRest(line).None?
  }

  /** `parse_order_question`: every line after the header that is not an answer line is an item. */
  function OrderOf(block: seq<string>): Option<Order>
  {
    var lines := CleanLines(block);
    if lines == [] then None
    else
      var body := DropHeader(lines);
      if body == [] then None
      else
        var items := Keep(body, NotAnswerLine);
        if |items| < 2 then None else Some(Order(OrderPrompt, items))
  }

  /** The loop of `parse_order_question`: every line that is not an answer line becomes an item. */
  method OrderItems(lines: seq<string>) returns (items: seq<string>)
    ensures items == Keep(lines, NotAnswerLine)
  {
    items := [];
    for i := 0 to |lines|
      invariant items == Keep(lines[..i], NotAnswerLine)
    {
      KeepStep(lines, i, NotAnswerLine);
      if AnswerRest(lines[i]).Some? {
        continue;
      }
      items := items + [lines[i]];
    }
    SliceAll(lines);
  }

  /** `parse_order_question` as the source runs it. */
  method ParseOrder(block: seq<string>) returns (r: Option<Order>)
    ensures r == OrderOf(block)
  {
    var lines := CleanLines(block);
    if lines == [] {
      return None;
    }
    if IsHeader(lines[0]) {
      lines := lines[1..];
    }
    if lines == [] {
      return None;
    }
    var items := OrderItems(lines);
    if |items| < 2 {
      return None;
    }
    return Some(Order(OrderPrompt, items));
  }

  /**
   * The ordering question keeps, in their original order, exactly the non-answer lines
   * after the header, and exists exactly when there are at least two of them.
   */
  lemma OrderOfSpec(block: seq<string>)
    ensures var body := DropHeader(CleanLines(block));
            var idx := KeptIdx(body, NotAnswerLine);
            && (OrderOf(block).Some? <==> |idx| >= 2)
            && (forall i :: 0 <= i < |body| ==> (NotAnswerLine(body[i]) <==> i in idx))
            && (OrderOf(block).Some? ==>
                  && OrderOf(block).value.prompt == OrderPrompt
                  && |OrderOf(block).value.items| == |idx|
                  && forall k :: 0 <= k < |idx| ==> OrderOf(block).value.items[k] == body[idx[k]])
  {
    var lines := CleanLines(block);
    var body := DropHeader(lines);
    var items := Keep(body, NotAnswerLine);
    KeptIdxExact(body, NotAnswerLine);
    assert OrderOf(block) == if |items| < 2 then None else Some(Order(OrderPrompt, items));
  }

  /** A line of a speaker question: not a header, and ending in "- woman", "- man" or "- both". */
  function GenderLine(line: string): (r: Option<GenderItem>)
    ensures r.Some? ==> r.value.gender == "woman" || r.value.gender == "man" || r.value.gender == "both"
  {
    if IsHeader(line) then None
    else
      match GenderMatch(line)
      case Some(m) => Some(GenderItem(m.0, m.1))
      case None => None
  }

  /** `parse_gender_block`: one item per speaker line, in order; none at all fails. */
  function GenderOf(block: seq<string>): Option<seq<GenderItem>>
  {
    var items := Choose(CleanLines(block), GenderLine);
    if items == [] then None else Some(items)
  }

  /** The loop of `parse_gender_block`: headers are skipped, every speaker line gives an item. */
  method GenderItems(lines: seq<string>) returns (items: seq<GenderItem>)
    ensures items == Choose(lines, GenderLine)
  {
    items := [];
    for i := 0 to |lines|
      invariant items == Choose(lines[..i], GenderLine)
    {
      var line := lines[i];
      ChooseStep(lines, i, GenderLine);
      if IsHeader(line) {
        continue;
      }
      var m := GenderMatch(line);
      if m.Some? {
        items := items + [GenderItem(m.value.0, m.value.1)];
      }
    }
    SliceAll(lines);
  }

  /** `parse_gender_block` as the source runs it. */
  method ParseGender(block: seq<string>) returns (r: Option<seq<GenderItem>>)
    ensures r == GenderOf(block)
  {
    var items := GenderItems(CleanLines(block));
    if items == [] {
      return None;
    }
    return Some(items);
  }

  /**
   * The speaker question fails exactly when no line is a speaker line. Otherwise its
   * items come, in order, from the speaker lines, and each names woman, man or both.
   */
  lemma GenderOfSpec(block: seq<string>)
    ensures var lines := CleanLines(block);
            && (GenderOf(block).None? <==> forall i :: 0 <= i < |lines| ==> GenderLine(lines[i]).None?)
            && (GenderOf(block).Some? ==>
                  var items := GenderOf(block).value;
                  var idx := ChosenIdx(lines, GenderLine);
                  && |items| == |idx|
                  && (forall k :: 0 <= k < |idx| ==> GenderLine(lines[idx[k]]) == Some(items[k]))
                  && (forall k, l :: 0 <= k < l < |idx| ==> idx[k] < idx[l])
                  && (forall i :: 0 <= i < |lines| ==> (GenderLine(lines[i]).Some? <==> i in idx))
                  && (forall k :: 0 <= k < |items| ==>
                        items[k].gender == "woman" || items[k].gender == "man" || items[k].gender == "both"))
  {
    var lines := CleanLines(block);
    ChooseEmpty(lines, GenderLine);
    ChosenIdxExact(lines, GenderLine);
  }
}
