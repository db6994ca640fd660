# Question-bank practice tool, modelled in Dafny

`app.py` is a single-page tool for practising a 17-question listening test. A teacher
uploads Word documents, one per test. Each document is cut into question blocks at every
"Question N:" header, and block N is parsed by the parser of its group:

- questions 1-13 are single-choice questions (group 1);
- question 14 is an ordering question (group 2);
- question 15 is a set of speaker statements answered woman / man / both (group 3);
- questions 16-17 are single- or multi-part single-choice questions (group 4).

The parsed records are appended to a session-wide question bank keyed by group. A test
can be deleted again. When every group holds enough questions, a 17-question practice
exam is drawn from the bank, and the student's answers are scored on three tallies.

The model covers that core:

- `Text` and `Patterns`: Python's `strip`/`lstrip`/`lower`/`upper` and the four regular
  expressions the parsers use (header, answer, option, speaker), each written out as a
  function on strings.
- `Segmenter`: the block splitter of `extract_raw_questions_from_docx`.
- `Parsers`, `Group4`: `parse_single_mcq`, `parse_group1_mcq`, `parse_order_question`,
  `parse_gender_block` and `parse_group4_block`, each as a function with its loops as
  methods proved equal to it.
- `Records`, `Bank`: `get_group_for_index`, the record a parsed block becomes, the bank
  invariant, and the upload and delete operations as functions on the bank.
- `Exam`: the quota check and the exam draw, with the random draws as inputs.
- `Store`: the session state (`question_bank`, `current_exam`) as a class whose
  methods are the upload, delete and create-exam buttons.
- `Grader`: the scoring loop and its three tallies.

Two places where the code does something a reader might not expect, and the model
follows the code:

- Lines before the first header form a block of their own, which takes position 1 and
  moves every question one position on (`Segmenter.SplitFirst`, `Segmenter.SplitCount`).
- A parsed question's answer letter need not be one of its option labels
  (`Parsers.AnswerNeedNotBeOption`).

## Model

| member | source | states |
|---|---|---|
| Text.Upper | app.py:123 | `upper()` on a character: an ASCII lower-case letter becomes a capital that lower-cases back to it, any other character is kept, and the result is never an ASCII lower-case letter |
| Text.LowerStr | app.py:194 | lower-casing keeps the length, turns every ASCII capital into its lower-case letter, keeps every other ASCII character, and leaves no ASCII capital |
| Text.LowerStrIdempotent | app.py:194 | lower-casing a lower-cased string changes nothing |
| Text.TrimLeft | app.py:194 | `lstrip()` gives the suffix that starts at the first non-whitespace character; everything dropped is whitespace |
| Text.TrimRight | app.py:78 | `rstrip()` gives the prefix that ends at the last non-whitespace character; everything dropped is whitespace |
| Text.Strip | app.py:78 | `strip()` gives a slice of the input with only whitespace before and after it; the slice neither starts nor ends with whitespace, and is empty exactly when the input is all whitespace |
| Text.StripOfStripped | app.py:130 | stripping a string that is already stripped changes nothing |
| Patterns.DigitRun | app.py:57 | the `\d+` of the header pattern: the longest run of digits at the start of the string |
| Patterns.HeaderSpec | app.py:56-58 | a line is a question header exactly when it splits as leading whitespace, "question" in any case, whitespace, one or more digits, whitespace and one of the header marks |
| Patterns.AnswerAtSpec | app.py:61 | the answer pattern matches at a position exactly when "answer" in any case starts there and is followed by whitespace, a colon and at least one more character; the answer is everything after the colon, stripped |
| Patterns.MarkerSpec | app.py:194 | a line is a sub-question marker exactly when, after leading whitespace, it starts with "câu " in any case |
| Patterns.FirstIsLeftmost | app.py:119 | a `search` finds the leftmost matching position, and fails only when every position fails |
| Patterns.AnswerRestLeftmost | app.py:119-121 | the answer search fails exactly when the answer pattern matches at no position, and otherwise gives the remainder of the leftmost match |
| Patterns.OptionLabel | app.py:129 | the matched label upper-cased: a capital A-D is kept, a small a-d becomes the capital that lower-cases back to it; the result is one of A-D |
| Patterns.OptionMatch | app.py:127-130 | a line that matches the option pattern gives a label in A-D |
| Patterns.OptionMatchSpec | app.py:63 | the option pattern matches exactly when the line is whitespace, a label A-D in either case, whitespace, `.` or `)`, and at least one more character; for every such split the label is the letter upper-cased and the text is everything after the mark, stripped |
| Patterns.SpeakerOf | app.py:284-287 | what follows a hyphen matches the speaker part of the pattern only when it is a speaker keyword amid whitespace, and then gives that keyword lower-cased: woman, man or both |
| Patterns.LastIsRightmost | app.py:284-287 | trying the split points from the right finds the rightmost one that succeeds, and fails only when every one fails |
| Patterns.GenderMatchSpec | app.py:284-287 | the speaker pattern matches exactly when the line has a hyphen, after at least one character, followed only by a speaker keyword and whitespace; the stem is everything before the last such hyphen, stripped, and the speaker is the keyword after it, lower-cased |
| Patterns.GenderMatch | app.py:284-287 | a speaker line gives a stem and a speaker that is woman, man or both |
| Segmenter.SplitPartition | app.py:82-99 | the blocks, put back together, give every line of the document in its original order |
| Segmenter.SplitStep | app.py:91-96 | one more line opens a new block when it is a header (or the first line), and otherwise joins the last block |
| Segmenter.SplitFirst | app.py:82-99 | there are blocks exactly when there are lines, and the first block starts with the first line, header or not |
| Segmenter.SplitOpens | app.py:85-96 | no block is empty, and every block after the first starts with a header |
| Segmenter.SplitInner | app.py:91-96 | inside a block, only the first line may be a header |
| Segmenter.SplitShape | app.py:82-99 | the blocks are non-empty, open exactly at the headers, and the first starts with the first line |
| Segmenter.SplitCount | app.py:82-99 | there is one block per header, plus one when the document does not start with a header |
| Segmenter.BlocksPartition | app.py:82-99 | the question blocks partition the document, open exactly at the headers, and number one per header plus one for any leading non-header lines |
| Segmenter.SplitLines | app.py:82-99 | the accumulate-and-flush loop builds exactly the blocks `SplitAt` describes |
| Segmenter.Segment | app.py:82-99 | the block splitter returns the question blocks, which give back the document's lines and open at each header |
| Parsers.Classify | app.py:117-134 | a line that is an option line names a label in A-D |
| Parsers.ScanStep | app.py:117-134 | one more line adds itself to the stem lines when it is neither an answer nor an option line, overwrites its label's option when it is an option line, and sets the answer when it gives a non-blank answer |
| Parsers.ScanLines | app.py:113-134 | the loop leaves the stem lines, the options dictionary and the answer that the lines' kinds determine |
| Parsers.ParseSingleMcq | app.py:106-140 | `parse_single_mcq` returns what `McqOf` describes |
| Parsers.AnswerInLast | app.py:119-124 | the answer is missing exactly when no line gives a non-blank answer; otherwise it is the upper-cased first character of the last line that gives one |
| Parsers.OptionsInLast | app.py:127-132 | a label has an option exactly when some option line names it, and the text is that of the last such line |
| Parsers.McqFromSpec | app.py:136-140 | the question fails exactly when no line gives an answer or no line is an option; otherwise it has the given stem, only labels A-D that some option line names, the last answer given, and the last text given for each label |
| Parsers.AnswerNeedNotBeOption | app.py:119-140 | the answer letter of a parsed question need not be one of its option labels |
| Parsers.DropHeader | app.py:150-151 | what is left is a suffix of the lines at most one line shorter, and it is shorter exactly when the first line is a question header |
| Parsers.ParseGroup1 | app.py:143-156 | `parse_group1_mcq` cleans the block, drops the header and parses the rest as one single-choice question |
| Parsers.OrderItems | app.py:259-262 | the loop keeps, in order, exactly the lines that are not answer lines |
| Parsers.ParseOrder | app.py:241-269 | `parse_order_question` returns what `OrderOf` describes |
| Parsers.OrderOfSpec | app.py:241-269 | the ordering question exists exactly when at least two lines after the header are not answer lines; its items are exactly those lines, in order, under the fixed prompt |
| Parsers.GenderLine | app.py:279-288 | a speaker line gives a statement whose speaker is woman, man or both |
| Parsers.GenderItems | app.py:279-288 | the loop skips header lines and keeps, in order, the statement of every speaker line |
| Parsers.ParseGender | app.py:272-293 | `parse_gender_block` returns what `GenderOf` describes |
| Parsers.GenderOfSpec | app.py:272-293 | the speaker question fails exactly when no line is a speaker line; otherwise its statements come, in order, from exactly the speaker lines, each naming woman, man or both |
| Group4.Starts | app.py:209-213 | the positions of the marker lines are increasing and inside the body |
| Group4.SubBlockAt | app.py:222-224 | the `i`-th sub-block is the slice from the `i`-th marker line up to the next marker line or the end |
| Group4.SplitIntro | app.py:188-200 | the intro is every line before the first marker line, and the body is the rest |
| Group4.MarkerStarts | app.py:209-213 | the loop collects exactly the positions of the marker lines |
| Group4.ParseSubBlocks | app.py:221-227 | the loop keeps, in order, the question of every sub-block that parses |
| Group4.ParseSubBlock | app.py:222-225 | one pass parses exactly the `i`-th sub-block |
| Group4.ParseGroup4 | app.py:177-186 | `parse_group4_block` cleans the block, fails when it is empty, and drops the header |
| Group4.ParseGroup4Lines | app.py:188-238 | the rest of `parse_group4_block` returns what `Group4Lines` describes |
| Group4.SubBlocksPartition | app.py:209-224 | a body that opens with a marker is cut into sub-blocks that give back the body in order; each opens with a marker line and holds no other |
| Group4.Group4NoMarker | app.py:202-207 | without a marker line the whole block is parsed as one single-choice question |
| Group4.Group4WithMarker | app.py:188-238 | with a marker line, the intro is every line before it, the body opens with a marker line, and the outcome depends only on which sub-blocks parse |
| Group4.FromItemsSpec | app.py:229-238 | nothing exactly when no sub-block parses; the one question alone when exactly one does; otherwise the intro with every parsed question |
| Records.GroupOf | app.py:296-312 | positions 1-13 are group 1, 14 group 2, 15 group 3, 16-17 group 4, and there is no group outside 1-17 |
| Records.ParseBlock | app.py:458-540 | each group's parser gives a content type that group holds |
| Records.Group4Body | app.py:516-540 | a group-4 question is stored as single-choice when it has one part and as multi-part otherwise, both content types group 4 holds |
| Records.RecordAt | app.py:454-540 | a block becomes a record exactly when its position has a group whose parser accepts it; the record carries the test, the position and that group |
| Records.ParseBlockAt | app.py:458-540 | the dispatch runs the group's own parser and wraps its result as that group's content |
| Records.MakeRecord | app.py:454-540 | one pass of the upload loop gives the record `RecordAt` describes |
| Bank.Limit | app.py:450-452 | the upload looks at all the blocks, or at the first 17 when there are more |
| Bank.MakerInGroups | app.py:454-540 | every record the upload loop makes goes to one of the four groups |
| Bank.CollectShape | app.py:450-540 | the collected records belong to the test, sit at positions among the blocks looked at, are placed in their groups, and come in increasing position order |
| Bank.CollectMembers | app.py:450-540 | a record is collected exactly when the block at its position makes it |
| Bank.ProducedSpec | app.py:450-540 | an upload's records belong to the test, are placed in their groups, come in increasing position order, and number at most the blocks looked at |
| Bank.UploadedSpec | app.py:444-540 | the records of an upload are exactly the records that the blocks at positions 1-17 parse into, at most 17 |
| Bank.KeepUnique | app.py:616-618 | filtering a group with no repeated question keeps it without repeats |
| Bank.SplitByGroup | app.py:464-540 | records of the four groups spread over the four group lists without loss |
| Bank.AppendedStep | app.py:464-540 | appending one record changes only the list of its own group |
| Bank.UploadedUnique | app.py:450-540 | the records of one upload never repeat a position, and each is placed in its group |
| Bank.JoinUnique | app.py:438-540 | records of a new test appended to records of other tests repeat no question |
| Bank.UploadPreserves | app.py:437-542 | an upload keeps the bank invariant: the four groups, every record in its position's group with that group's type, and no question stored twice |
| Bank.UploadSpec | app.py:437-542 | a duplicate test is refused and a document without blocks adds nothing, both leaving the bank as it was; otherwise each group becomes its old records followed by the new records of that group, the total grows by the reported count (at most 17), and the test joins the bank's tests when a record was added |
| Bank.CollectInGroup | app.py:450-540 | the records of a group collected from the blocks are one per block at a position of that group that makes a record |
| Bank.ProducedInGroup | app.py:450-540 | the records of a group an upload produces are one per block at a position of that group whose parser accepts it |
| Bank.AppendedCounts | app.py:545 | appending records adds to each group's count the number of new records of that group |
| Bank.UploadCounts | app.py:437-545 | after an accepted upload each group's count grows by the number of blocks among the first 17, at positions of that group, that parse; after a refused one the counts are unchanged |
| Bank.AppendedTotal | app.py:449-540 | appending records of the four groups keeps the groups and adds their number to the total |
| Bank.AppendedPrefix | app.py:464-540 | appending keeps every group's old records, in order, at its front |
| Bank.UploadTestIds | app.py:431-435 | appending records of one test adds that test to the bank's tests exactly when a record is appended |
| Bank.DeleteMembers | app.py:614-618 | deleting keeps the four groups; a record stays exactly when it was there and belongs to another test; the deleted test is gone from the bank's tests |
| Bank.DeleteKeepsOrder | app.py:616-618 | what stays of a group is its old records from other tests, in their old order |
| Bank.DeleteIdempotent | app.py:614-618 | deleting the same test twice deletes nothing more |
| Bank.DeleteAbsent | app.py:614-618 | deleting a test the bank does not hold changes nothing |
| Bank.DeletePreserves | app.py:614-618 | deleting keeps the bank invariant |
| Bank.RemoveGrown | app.py:616-618 | removing a test from a list grown only by that test's records gives back the list |
| Bank.InTestIds | app.py:431-435 | every record's test is among the bank's tests |
| Bank.AppendThenRemove | app.py:616-618 | removing the test whose records alone were just appended gives back the bank |
| Bank.UploadThenDelete | app.py:614-618 | deleting a new test right after uploading it gives back the bank as it was |
| Bank.UploadRefused | app.py:438-447 | a duplicate test or a document without blocks is reported as such and leaves the bank as it was |
| Bank.UploadAccepted | app.py:443-540 | an accepted upload appends the document's records and reports their number |
| Bank.FilteredBelowStep | app.py:615-618 | filtering one more group moves the delete loop one group on |
| Bank.FilteredNone | app.py:615 | before the delete loop no group is filtered |
| Bank.FilteredAll | app.py:615-618 | after the delete loop all four groups are filtered |
| Bank.AppendNext | app.py:450-540 | one more block appends the record it makes, if any, to its group's list and counts it |
| Bank.AppendedNone | app.py:449 | before the upload loop nothing has been appended |
| Exam.QuotaExact | app.py:689-709 | the quota guard holds exactly when an exam can be drawn: it suffices for a draw, and any draw needs it |
| Exam.UniqueApart | app.py:706-709 | two different positions of a group with no repeated question hold different records |
| Exam.DrawnSpec | app.py:706-715 | the drawn exam is 17 records, each from the group of its position and in that group, with no record twice, and the ordering question is exactly question 14 |
| Exam.ShuffledViewSpec | app.py:719-720 | an ordering question's shuffled items are its items, each as often, and nothing else; other questions get none |
| Exam.Annotate | app.py:718-720 | every exam question keeps its record, and exactly the ordering questions get a shuffled view |
| Store.AppendBlocks | app.py:449-540 | the upload loop appends the records of the first 17 blocks to their groups and counts them |
| Store.RemoveTest | app.py:615-618 | the delete loop leaves each group without the records of the test |
| Store.QuestionBank.constructor | app.py:319-328 | the session starts with four empty groups and no exam |
| Store.QuestionBank.Upload | app.py:431-542 | the upload button keeps the bank invariant and leaves the bank and the reported outcome that `UploadSpec` describes; the exam is untouched |
| Store.QuestionBank.Delete | app.py:614-618 | the delete button keeps the bank invariant and removes exactly the test's records; the exam is untouched |
| Store.QuestionBank.Assemble | app.py:689-722 | an exam is created exactly when the quotas are met; it is then 17 records, each from the group of its position; the bank is untouched, and without the quotas so is the exam |
| Grader.ChoiceTally | app.py:755-763 | a single-choice question counts once and scores exactly when the picked label is its answer |
| Grader.PartsTally | app.py:770-790 | every part of a multi-part question counts, and no more parts score than count |
| Grader.OrderTally | app.py:810-817 | an ordering question counts once and scores exactly when the selection is its items in their right order |
| Grader.SpeakersTally | app.py:828-841 | no more statements score than count, and no more count than the question has |
| Grader.SpeakersTotalAnswered | app.py:828-841 | a speaker question counts exactly its statements that were given a speaker |
| Grader.ExamScores | app.py:738-841 | on every tally the score never exceeds the total |
| Grader.PartsStep | app.py:770-790 | one more part adds its own tally |
| Grader.SpeakersStep | app.py:828-841 | one more statement adds its own tally |
| Grader.ExamStep | app.py:738-841 | one more exam question adds its own tallies |
| Grader.ExamLast | app.py:738-841 | an exam's tallies are those of all but its last question plus those of the last |
| Grader.GradeParts | app.py:770-790 | the parts loop computes the parts tally |
| Grader.GradeStatement | app.py:835-841 | a statement counts only when answered, and scores when the lower-cased pick is its speaker |
| Grader.GradeSpeakers | app.py:828-841 | the statements loop computes the speaker tally |
| Grader.GradeEntry | app.py:743-841 | one question adds the tallies of its own type |
| Grader.Grade | app.py:729-841 | the six counters end as the exam's three tallies |
| Grader.OrderTotalCounts | app.py:810 | the ordering total is the number of ordering questions, whatever the answers |
| Grader.McqTotalCounts | app.py:755-782 | the single-choice total is the number of single-choice questions plus the number of parts of multi-part questions, whatever the answers |
| Grader.McqTotalFixed | app.py:755-782 | the single-choice total does not depend on the answers |
| Grader.LowerOfLowercase | app.py:837 | lower-casing leaves a word of lower-case ASCII letters as it is |
| Grader.NamedLower | app.py:837 | picking a statement's own speaker matches it once lower-cased |
| Grader.PartsPerfect | app.py:784-788 | every part answered rightly scores every part |
| Grader.SpeakersPerfect | app.py:828-841 | every statement answered with its own speaker counts and scores |
| Grader.PerfectScores | app.py:738-841 | answering every question rightly scores full marks on all three tallies |
| Grader.PartsUnanswered | app.py:784 | an unanswered part never scores |
| Grader.SpeakersUnanswered | app.py:835-836 | an unanswered statement neither counts nor scores |
| Grader.NothingAdded | app.py:729-736 | two tallies that scored nothing add up to one that scored nothing |
| Grader.EntryUnanswered | app.py:743-841 | an unanswered question scores nothing, and a speaker question counts no statement |
| Grader.UnansweredScores | app.py:738-841 | an unanswered exam scores nothing on any tally, and counts no speaker statement |

## Left out

- The user interface is not modelled. This covers Streamlit widgets, tabs, messages, the statistics and review tabs (app.py:547-682) and the display of questions. Only their effect on the bank, the exam and the tallies is modelled.
- Reading the `.docx` file is not modelled. An upload takes the document's paragraphs as a list of strings.
- The model does not join a block into one string and split it again. A block is kept as its list of lines. This matches the code when no paragraph holds a line break.
- Randomness is not modelled. `random.sample` and `random.choice` become inputs: the positions picked in each group and the permutation applied to each ordering question's items.
- Text handling is simplified:
  - Case folding covers ASCII and Latin-1 letters only.
  - `upper()` covers ASCII letters only.
  - `\d` matches ASCII digits only.
- The `re.IGNORECASE` matching is modelled through that lower-casing.
- The model does not keep the options dictionary's insertion order, because it is a map. Only the statistics and view displays show that order (app.py:574, 582, 663, 671), and they are left out as user interface; the exam tab sorts the labels (app.py:746).
- Exam.Annotate: the code stores `shuffled_items` on the bank's own question dictionaries, because the exam shares them with the bank. The model keeps it beside each exam question, so the bank is not changed by drawing an exam.
- The branch for a body without marker lines (app.py:215-219) cannot be reached, because the body starts at a marker line. `Group4.Group4WithMarker` proves this, and the branch is not modelled.
- Records.MakeRecord requires a position from 1 to 17. The loop breaks before position 18, and every position from 1 to 17 has a group, so the `group is None` branch (app.py:455-456) never runs.
- Store.AppendBlocks: the loop takes the record maker as a parameter. `Store.QuestionBank.Upload` passes `Bank.Maker`, the function form of `Records.MakeRecord`. The `break` at position 18 is modelled as a loop over the first `Bank.Limit` blocks.
- Grader: the radio and select widgets return labels directly. The model does not produce `"A. text"` strings and cut the label back out (app.py:758, 785). Any string is allowed as a speaker pick, not only the three the select box offers.
- Grader.UnansweredScores requires every ordering question to have items. An empty selection is the right order of an empty list, and the parser never makes an ordering question with fewer than two items.
- The test number's range of 1 to 50 is enforced by the number input, so the model takes any integer as a test id.
