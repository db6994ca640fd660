/**
 * The question bank as the app keeps it (`st.session_state.question_bank` and
 * `current_exam`, app.py:319-328): uploading a test (app.py:431-542), deleting a test
 * (app.py:614-618) and creating an exam (app.py:689-722), each proved to leave the
 * state the functions of the Bank and Exam modules describe.
 */
module Store {
  import opened Wrappers
  import opened Seqs
  import opened Segmenter
  import opened Parsers
  import opened Records
  import opened Bank
  import opened Exam

  /**
   * The loop of the upload button (app.py:447-540): the blocks at positions 1 to 17 (the
   * loop breaks at position 18), each turned into a record by `mk` (the parser of its
   * group, see `Records.MakeRecord`), the records appended to their groups and counted.
   */
  method AppendBlocks(bank0: Groups, blocks: seq<seq<string>>, mk: (int, seq<string>) -> Option<Record>)
    returns (bank: Groups, added: nat)
    requires bank0.Keys == {1, 2, 3, 4}
    requires forall idx, block :: mk(idx, block).Some? ==> mk(idx, block).value.group in bank0
    ensures bank == Appended(bank0, Collect(blocks, Limit(|blocks|), mk))
    ensures added == |Collect(blocks, Limit(|blocks|), mk)|
  {
    bank, added := bank0, 0;
    AppendedNone(bank0);
    for i := 0 to Limit(|blocks|)
      invariant bank == Appended(bank0, Collect(blocks, i, mk))
      invariant added == |Collect(blocks, i, mk)|
    {
      AppendNext(bank0, blocks, i, mk);
      var rec := mk(i + 1, blocks[i]);
      if rec.Some? {
        bank := bank[rec.value.group := bank[rec.value.group] + [rec.value]];
        added := added + 1;
      }
    }
  }

  /** The loop of the delete button (app.py:614-618): every group without the records of test `id`. */
  method RemoveTest(bank0: Groups, id: int) returns (bank: Groups)
    requires bank0.Keys == {1, 2, 3, 4}
    ensures bank == Removed(bank0, id)
  {
    bank := bank0;
    FilteredNone(bank0, NotFrom(id));
    for g := 1 to 5
      invariant bank == FilteredBelow(bank0, NotFrom(id), g)
    {
      assert g in {1, 2, 3, 4};
      FilteredBelowStep(bank0, NotFrom(id), g);
      bank := bank[g := Keep(bank[g], NotFrom(id))];
    }
    FilteredAll(bank0, NotFrom(id));
  }

  class QuestionBank {
    /** The records of each group, in upload order. */
    var bank: Groups
    /** The exam being practised. */
    var currentExam: seq<Entry>

    ghost predicate Valid()
      reads this
    {
      WellFormed(bank)
    }

    /** The session's initial state: four empty groups and no exam. */
    constructor ()
      ensures bank == map[1 := [], 2 := [], 3 := [], 4 := []] && currentExam == []
      ensures Valid()
    {
      bank := map[1 := [], 2 := [], 3 := [], 4 := []];
      currentExam := [];
    }

    /**
     * The upload button: refuse a test already in the bank, cut the document into
     * question blocks, and append the record of each of the first 17 blocks that parses.
     */
    method Upload(testId: int, paragraphs: seq<string>) returns (outcome: UploadOutcome)
      requires Valid()
      modifies this
      ensures Valid()
      ensures outcome == UploadOutcomeOf(old(bank), testId, paragraphs)
      ensures bank == AfterUpload(old(bank), testId, paragraphs)
      ensures currentExam == old(currentExam)
    {
      UploadPreserves(bank, testId, paragraphs);
      if testId in TestIdsOf(bank) {
        UploadRefused(bank, testId, paragraphs);
        return Duplicate;
      }
      var lines := CleanLines(paragraphs);
      var blocks := Segment(lines);
      if blocks == [] {
        UploadRefused(bank, testId, paragraphs);
        return NoBlocks;
      }
      UploadAccepted(bank, testId, paragraphs);
      UploadedFrom(testId, paragraphs, blocks);
      MakerInGroups(testId, bank);
      var added;
      bank, added := AppendBlocks(bank, blocks, Maker(testId));
      return Added(added);
    }

    /** The delete button: each group keeps only the records of other tests. */
    method Delete(id: int)
      requires Valid()
      modifies this
      ensures Valid()
      ensures bank == Removed(old(bank), id)
      ensures currentExam == old(currentExam)
    {
      DeletePreserves(bank, id);
      bank := RemoveTest(bank, id);
    }

    /**
     * The create-exam button: when the quotas are met, draw the exam by the given
     * positions and give each ordering question the given permutation of its items.
     */
    method Assemble(picks1: seq<nat>, pick2: nat, pick3: nat, picks4: seq<nat>, perms: seq<seq<nat>>) returns (created: bool)
      requires Valid()
      requires CanGenerate(bank) ==>
                 PicksFit(bank, picks1, pick2, pick3, picks4) && ShufflesFit(Drawn(bank, picks1, pick2, pick3, picks4), perms)
      modifies this
      ensures bank == old(bank)
      ensures created == CanGenerate(bank)
      ensures created ==> currentExam == Annotated(Drawn(bank, picks1, pick2, pick3, picks4), perms)
      ensures created ==>
                && |currentExam| == ExamSize
                && forall k :: 0 <= k < ExamSize ==>
                     GroupOf(k + 1) == Some(currentExam[k].rec.group) && currentExam[k].rec in bank[currentExam[k].rec.group]
      ensures !created ==> currentExam == old(currentExam)
    {
      var counts := CountsOf(bank);
      created := counts[1] >= 13 && counts[2] >= 1 && counts[3] >= 1 && counts[4] >= 2;
      if !created {
        return;
      }
      var q1 := Pick(bank[1], picks1);
      var q2 := bank[2][pick2];
      var q3 := bank[3][pick3];
      var q4 := Pick(bank[4], picks4);
      var examQuestions := q1 + [q2] + [q3] + q4;
      DrawnSpec(bank, picks1, pick2, pick3, picks4);
      currentExam := Annotate(examQuestions, perms);
    }
  }
}
