/**
 * Scoring a practice exam (app.py:729-852). Three tallies are kept: single-choice
 * questions (every question of type mcq and every part of an mcq_multi question),
 * ordering questions, and speaker statements. The first two count every question,
 * answered or not; the speaker tally counts only the statements given an answer.
 * The student's answers are an input: one response per exam question.
 */
module Grader {
  import opened Wrappers
  import opened Text
  import opened Seqs
  import opened Parsers
  import opened Records
  import opened Exam

  /** What the student entered for one exam question. */
  datatype Response = Response(
    choice: Option<char>,           // the option label picked for a single-choice question
    subChoices: seq<Option<char>>,  // the labels picked for the parts of a multi-part question
    selected: seq<string>,          // the items picked, in order, for an ordering question
    speakers: seq<Option<string>>)  // the speaker picked for each statement of a speaker question

  /** Nothing picked anywhere: "(Chưa chọn)" on every widget and an empty selection. */
  const Blank := Response(None, [], [], [])

  /** A score out of a total. */
  datatype Tally = Tally(score: nat, total: nat)

  /** The three tallies of app.py:729-736. */
  datatype Scores = Scores(mcq: Tally, order: Tally, gender: Tally)

  const NoTally := Tally(0, 0)

  function Plus(a: Tally, b: Tally): Tally {
    Tally(a.score + b.score, a.total + b.total)
  }

  function AddScores(a: Scores, b: Scores): Scores {
    Scores(Plus(a.mcq, b.mcq), Plus(a.order, b.order), Plus(a.gender, b.gender))
  }

  /** The response to question `i`; a question without one is unanswered. */
  function ResponseAt(responses: seq<Response>, i: int): Response {
    if 0 <= i < |responses| then responses[i] else Blank
  }

  /** The pick for part or statement `j`; one not given is unanswered. */
  function PickAt<T>(picks: seq<Option<T>>, j: int): Option<T> {
    if 0 <= j < |picks| then picks[j] else None
  }

  /** A single-choice question counts once and scores when the picked label is its answer. */
  function ChoiceTally(q: Mcq, choice: Option<char>): (t: Tally)
    ensures t.total == 1 && t.score <= 1
    ensures t.score == 1 <==> choice == Some(q.answer)
  {
    Tally(if choice == Some(q.answer) then 1 else 0, 1)
  }

  /** The parts of a multi-part question, each counted and scored like a single-choice question. */
  function PartsTally(items: seq<Mcq>, choices: seq<Option<char>>): (t: Tally)
    ensures t.score <= t.total == |items|
  {
    if items == [] then NoTally
    else
      var n := |items| - 1;
      Plus(PartsTally(items[..n], choices), ChoiceTally(items[n], PickAt(choices, n)))
  }

  /** An ordering question counts once and scores when all its items are picked in their correct order. */
  function OrderTally(o: Order, selected: seq<string>): (t: Tally)
    ensures t.total == 1 && t.score <= 1
    ensures t.score == 1 <==> selected == o.items
  {
    Tally(if |selected| == |o.items| && selected == o.items then 1 else 0, 1)
  }

  /** A statement counts only when a speaker is picked, and scores when the lower-cased pick is its speaker. */
  function SpeakerTally(item: GenderItem, pick: Option<string>): Tally {
    match pick
    case None => NoTally
    case Some(c) => Tally(if LowerStr(c) == item.gender then 1 else 0, 1)
  }

  /** The statements of a speaker question. */
  function SpeakersTally(items: seq<GenderItem>, picks: seq<Option<string>>): (t: Tally)
    ensures t.score <= t.total <= |items|
  {
    if items == [] then NoTally
    else
      var n := |items| - 1;
      Plus(SpeakersTally(items[..n], picks), SpeakerTally(items[n], PickAt(picks, n)))
  }

  /** What one exam question adds to the tallies, by its type. */
  function EntryScores(e: Entry, r: Response): Scores {
    match e.rec.body
    case McqBody(q) => Scores(ChoiceTally(q, r.choice), NoTally, NoTally)
    case MultiBody(_, items) => Scores(PartsTally(items, r.subChoices), NoTally, NoTally)
    case OrderBody(o) => Scores(NoTally, OrderTally(o, r.selected), NoTally)
    case GenderBody(items) => Scores(NoTally, NoTally, SpeakersTally(items, r.speakers))
  }

  /** The tallies of a whole exam, response `i` going with question `i`. */
  function ExamScores(exam: seq<Entry>, responses: seq<Response>): (s: Scores)
    ensures s.mcq.score <= s.mcq.total && s.order.score <= s.order.total && s.gender.score <= s.gender.total
  {
    if exam == [] then Scores(NoTally, NoTally, NoTally)
    else
      var n := |exam| - 1;
      AddScores(ExamScores(exam[..n], responses), EntryScores(exam[n], ResponseAt(responses, n)))
  }

  lemma PartsStep(items: seq<Mcq>, choices: seq<Option<char>>, j: nat)
    requires j < |items|
    ensures PartsTally(items[..j + 1], choices) == Plus(PartsTally(items[..j], choices), ChoiceTally(items[j], PickAt(choices, j)))
  {
    assert items[..j + 1][..j] == items[..j];
  }

  lemma SpeakersStep(items: seq<GenderItem>, picks: seq<Option<string>>, j: nat)
    requires j < |items|
    ensures SpeakersTally(items[..j + 1], picks) == Plus(SpeakersTally(items[..j], picks), SpeakerTally(items[j], PickAt(picks, j)))
  {
    assert items[..j + 1][..j] == items[..j];
  }

  lemma ExamStep(exam: seq<Entry>, responses: seq<Response>, i: nat)
    requires i < |exam|
    ensures ExamScores(exam[..i + 1], responses) == AddScores(ExamScores(exam[..i], responses), EntryScores(exam[i], ResponseAt(responses, i)))
  {
    assert exam[..i + 1][..i] == exam[..i];
  }

  /** The parts loop of app.py:770-791. */
  method GradeParts(items: seq<Mcq>, choices: seq<Option<char>>) returns (score: nat, total: nat)
    ensures Tally(score, total) == PartsTally(items, choices)
  {
    score, total := 0, 0;
    for j := 0 to |items|
      invariant Tally(score, total) == PartsTally(items[..j], choices)
    {
      PartsStep(items, choices, j);
      var chosen := PickAt(choices, j);
      total := total + 1;
      if chosen.Some? && chosen.value == items[j].answer {
        score := score + 1;
      }
    }
    SliceAll(items);
  }

  /** One statement of the loop of app.py:828-841: counted when answered, scored when the lower-cased pick is its speaker. */
  method GradeStatement(item: GenderItem, choice: Option<string>) returns (score: nat, total: nat)
    ensures Tally(score, total) == SpeakerTally(item, choice)
  {
    score, total := 0, 0;
    if choice.Some? {
      total := 1;
      if LowerStr(choice.value) == item.gender {
        score := 1;
      }
    }
  }

  /** The statements loop of app.py:828-841. */
  method GradeSpeakers(items: seq<GenderItem>, picks: seq<Option<string>>) returns (score: nat, total: nat)
    ensures Tally(score, total) == SpeakersTally(items, picks)
  {
    score, total := 0, 0;
    for j := 0 to |items|
      invariant Tally(score, total) == SpeakersTally(items[..j], picks)
    {
      SpeakersStep(items, picks, j);
      var s, t := GradeStatement(items[j], PickAt(picks, j));
      score, total := score + s, total + t;
    }
    SliceAll(items);
  }

  /** The body of the scoring loop of app.py:738-843 for one question, by its type. */
  method GradeEntry(q: Entry, r: Response) returns (scores: Scores)
    ensures scores == EntryScores(q, r)
  {
    var scoreMcq: nat, totalMcq: nat, scoreOrder: nat, totalOrder: nat, scoreGender: nat, totalGender: nat := 0, 0, 0, 0, 0, 0;
    match q.rec.body {
      case McqBody(item) =>
        totalMcq := 1;
        if r.choice.Some? && r.choice.value == item.answer {
          scoreMcq := 1;
        }
      case MultiBody(_, items) =>
        scoreMcq, totalMcq := GradeParts(items, r.subChoices);
      case OrderBody(o) =>
        totalOrder := 1;
        if |r.selected| == |o.items| && r.selected == o.items {
          scoreOrder := 1;
        }
      case GenderBody(items) =>
        scoreGender, totalGender := GradeSpeakers(items, r.speakers);
    }
    scores := Scores(Tally(scoreMcq, totalMcq), Tally(scoreOrder, totalOrder), Tally(scoreGender, totalGender));
  }

  /** The scoring loop of app.py:738-843 over the exam; its six counters are the three tallies. */
  method Grade(exam: seq<Entry>, responses: seq<Response>) returns (scores: Scores)
    ensures scores == ExamScores(exam, responses)
  {
    scores := Scores(NoTally, NoTally, NoTally);
    for i := 0 to |exam|
      invariant scores == ExamScores(exam[..i], responses)
    {
      ExamStep(exam, responses, i);
      var d := GradeEntry(exam[i], ResponseAt(responses, i));
      scores := AddScores(scores, d);
    }
    SliceAll(exam);
  }

  /** An ordering question of the exam. */
  predicate IsOrderEntry(e: Entry) {
    e.rec.body.OrderBody?
  }

  /** The ordering tally counts every ordering question of the exam, whatever the responses. */
  lemma {:induction false} OrderTotalCounts(exam: seq<Entry>, responses: seq<Response>)
    ensures ExamScores(exam, responses).order.total == |Keep(exam, IsOrderEntry)|
  {
    if exam != [] {
      var n := |exam| - 1;
      OrderTotalCounts(exam[..n], responses);
      assert exam == exam[..n] + [exam[n]];
      KeepSnoc(exam[..n], exam[n], IsOrderEntry);
    }
  }

  /** How many single-choice questions a question holds: one for a single-choice question, one per part of a multi-part one. */
  function EntryMcqCount(e: Entry): nat {
    match e.rec.body
    case McqBody(_) => 1
    case MultiBody(_, items) => |items|
    case _ => 0
  }

  /** How many single-choice questions and parts the exam holds. */
  function McqCount(exam: seq<Entry>): nat {
    if exam == [] then 0 else McqCount(exam[..|exam| - 1]) + EntryMcqCount(exam[|exam| - 1])
  }

  /** The single-choice tally counts every single-choice question and every part, answered or not. */
  lemma {:induction false} McqTotalCounts(exam: seq<Entry>, responses: seq<Response>)
    ensures ExamScores(exam, responses).mcq.total == McqCount(exam)
  {
    if exam != [] {
      var n := |exam| - 1;
      McqTotalCounts(exam[..n], responses);
      ExamLast(exam, responses);
      assert EntryScores(exam[n], ResponseAt(responses, n)).mcq.total == EntryMcqCount(exam[n]);
    }
  }

  /** How many of the statements before `n` were given a speaker. */
  function AnsweredBelow<T>(picks: seq<Option<T>>, n: nat): nat {
    if n == 0 then 0 else AnsweredBelow(picks, n - 1) + (if PickAt(picks, n - 1).Some? then 1 else 0)
  }

  /** The speaker tally of a question counts exactly its statements that were given a speaker. */
  lemma {:induction false} SpeakersTotalAnswered(items: seq<GenderItem>, picks: seq<Option<string>>)
    ensures SpeakersTally(items, picks).total == AnsweredBelow(picks, |items|)
  {
    if items != [] {
      var n := |items| - 1;
      SpeakersTotalAnswered(items[..n], picks);
      assert SpeakerTally(items[n], PickAt(picks, n)).total == (if PickAt(picks, n).Some? then 1 else 0);
    }
  }

  /** How many single-choice questions and parts the tally counts does not depend on what was answered. */
  lemma McqTotalFixed(exam: seq<Entry>, r1: seq<Response>, r2: seq<Response>)
    ensures ExamScores(exam, r1).mcq.total == ExamScores(exam, r2).mcq.total
  {
    McqTotalCounts(exam, r1);
    McqTotalCounts(exam, r2);
  }

  /** The speaker statements are the three speakers the picker offers. */
  predicate SpeakersNamed(exam: seq<Entry>) {
    forall i :: 0 <= i < |exam| && exam[i].rec.body.GenderBody? ==>
      forall j :: 0 <= j < |exam[i].rec.body.speakers| ==> Named(exam[i].rec.body.speakers[j].gender)
  }

  predicate Named(g: string) {
    g == "woman" || g == "man" || g == "both"
  }

  /** Lower-casing leaves a word of lower-case ASCII letters as it is. */
  lemma LowerOfLowercase(s: string)
    requires forall i :: 0 <= i < |s| ==> 'a' <= s[i] <= 'z'
    ensures LowerStr(s) == s
  {
    assert forall i :: 0 <= i < |s| ==> LowerStr(s)[i] == s[i];
  }

  /** Picking a speaker's own name matches it once lower-cased. */
  lemma NamedLower(g: string)
    requires Named(g)
    ensures LowerStr(g) == g
  {
    if g == "woman" {
      LowerOfLowercase(g);
    } else if g == "man" {
      LowerOfLowercase(g);
    } else {
      LowerOfLowercase(g);
    }
  }

  /** The right answer to one exam question: every label, the items in order, every speaker. */
  function KeyResponse(e: Entry): Response {
    match e.rec.body
    case McqBody(q) => Response(Some(q.answer), [], [], [])
    case MultiBody(_, items) => Response(None, seq(|items|, j requires 0 <= j < |items| => Some(items[j].answer)), [], [])
    case OrderBody(o) => Response(None, [], o.items, [])
    case GenderBody(items) => Response(None, [], [], seq(|items|, j requires 0 <= j < |items| => Some(items[j].gender)))
  }

  /** Every part answered with its right label scores every part. */
  lemma {:induction false} PartsPerfect(items: seq<Mcq>, choices: seq<Option<char>>)
    requires |items| <= |choices|
    requires forall j :: 0 <= j < |items| ==> choices[j] == Some(items[j].answer)
    ensures PartsTally(items, choices).score == |items|
  {
    if items != [] {
      PartsPerfect(items[..|items| - 1], choices);
    }
  }

  /** Every statement answered with its own speaker counts and scores every statement. */
  lemma {:induction false} SpeakersPerfect(items: seq<GenderItem>, picks: seq<Option<string>>)
    requires |items| <= |picks|
    requires forall j :: 0 <= j < |items| ==> Named(items[j].gender) && picks[j] == Some(items[j].gender)
    ensures SpeakersTally(items, picks) == Tally(|items|, |items|)
  {
    if items != [] {
      var n := |items| - 1;
      SpeakersPerfect(items[..n], picks);
      NamedLower(items[n].gender);
    }
  }

  /** Answering every question rightly scores full marks on all three tallies. */
  lemma {:induction false} PerfectScores(exam: seq<Entry>, responses: seq<Response>)
    requires SpeakersNamed(exam)
    requires forall i :: 0 <= i < |exam| ==> ResponseAt(responses, i) == KeyResponse(exam[i])
    ensures var s := ExamScores(exam, responses);
            s.mcq.score == s.mcq.total && s.order.score == s.order.total && s.gender.score == s.gender.total
  {
    if exam != [] {
      var n := |exam| - 1;
      assert SpeakersNamed(exam[..n]) by {
        forall i | 0 <= i < n ensures exam[..n][i] == exam[i] { }
      }
      PerfectScores(exam[..n], responses);
      var e, r := exam[n], ResponseAt(responses, n);
      match e.rec.body {
        case McqBody(q) =>
        case MultiBody(_, items) => PartsPerfect(items, r.subChoices);
        case OrderBody(o) =>
        case GenderBody(items) => SpeakersPerfect(items, r.speakers);
      }
    }
  }

  /** A part left unanswered never scores. */
  lemma {:induction false} PartsUnanswered(items: seq<Mcq>)
    ensures PartsTally(items, []).score == 0
  {
    if items != [] {
      PartsUnanswered(items[..|items| - 1]);
    }
  }

  /** A statement left unanswered neither counts nor scores. */
  lemma {:induction false} SpeakersUnanswered(items: seq<GenderItem>)
    ensures SpeakersTally(items, []) == NoTally
  {
    if items != [] {
      SpeakersUnanswered(items[..|items| - 1]);
    }
  }

  /** The tallies of a non-empty exam: those of all but its last question, plus the last. */
  lemma ExamLast(exam: seq<Entry>, responses: seq<Response>)
    requires exam != []
    ensures ExamScores(exam, responses) ==
              AddScores(ExamScores(exam[..|exam| - 1], responses), EntryScores(exam[|exam| - 1], ResponseAt(responses, |exam| - 1)))
  {
  }

  lemma NothingAdded(a: Scores, b: Scores)
    requires NothingScored(a) && NothingScored(b)
    ensures NothingScored(AddScores(a, b))
  {
  }

  /** Nothing scored on any tally, and no speaker statement counted. */
  predicate NothingScored(s: Scores) {
    s.mcq.score == 0 && s.order.score == 0 && s.gender.score == 0 && s.gender.total == 0
  }

  /** A question left unanswered scores nothing, and a speaker question counts no statement. */
  lemma EntryUnanswered(e: Entry)
    requires IsOrderEntry(e) ==> e.rec.body.order.items != []
    ensures NothingScored(EntryScores(e, Blank))
  {
    match e.rec.body {
      case McqBody(q) =>
      case MultiBody(_, items) => PartsUnanswered(items);
      case OrderBody(o) =>
      case GenderBody(items) => SpeakersUnanswered(items);
    }
  }

  /**
   * An exam left unanswered scores nothing, and no speaker statement counts. An
   * ordering question needs items for this: an empty selection is the right order of
   * no items, and the parser only makes ordering questions of two items or more.
   */
  lemma {:induction false} UnansweredScores(exam: seq<Entry>, responses: seq<Response>)
    requires forall i :: 0 <= i < |exam| && IsOrderEntry(exam[i]) ==> exam[i].rec.body.order.items != []
    requires forall i :: 0 <= i < |exam| ==> ResponseAt(responses, i) == Blank
    ensures NothingScored(ExamScores(exam, responses))
  {
    if exam != [] {
      var n := |exam| - 1;
      var init := exam[..n];
      assert forall i :: 0 <= i < n ==> init[i] == exam[i];
      UnansweredScores(init, responses);
      EntryUnanswered(exam[n]);
      assert ResponseAt(responses, n) == Blank;
      ExamLast(exam, responses);
      NothingAdded(ExamScores(init, responses), EntryScores(exam[n], Blank));
    }
  }
}
