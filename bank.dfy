/**
 * The question bank of app.py as values: a map from group (1-4) to the records of
 * that group, in upload order (`st.session_state.question_bank`, app.py:319-325).
 * Uploading a test (app.py:431-542), deleting one (app.py:614-618) and the per-group
 * counts (app.py:545) are functions of the bank here; the `QuestionBank` class in
 * store.dfy runs them as the source does and is proved against them.
 */
module Bank {
  import opened Wrappers
  import opened Text
  import opened Seqs
  import opened Segmenter
  import opened Parsers
  import opened Records

  type Groups = map<int, seq<Record>>

  /** How many blocks an upload looks at: the loop stops after position 17. */
  function Limit(n: nat): (m: nat)
    ensures m <= n && m <= ExamSize
    ensures m == n || m == ExamSize
  {
    if n < ExamSize then n else ExamSize
  }

  /** The records `mk` makes of the first `n` blocks, in block order; blocks are numbered from 1. */
  function Collect(blocks: seq<seq<string>>, n: nat, mk: (int, seq<string>) -> Option<Record>): seq<Record>
    requires n <= |blocks|
  {
    if n == 0 then []
    else
      var pre := Collect(blocks, n - 1, mk);
      match mk(n, blocks[n - 1])
      case Some(r) => pre + [r]
      case None => pre
  }

  /** The record-making step of the upload loop, for test `testId`. */
  function Maker(testId: int): (int, seq<string>) -> Option<Record> {
    (idx: int, block: seq<string>) => RecordAt(testId, idx, block)
  }

  /** The records the first `n` blocks of a test produce, in block order. */
  function Produced(testId: int, blocks: seq<seq<string>>, n: nat): seq<Record>
    requires n <= |blocks|
  {
    Collect(blocks, n, Maker(testId))
  }

  /** The question blocks of an uploaded document: its stripped, non-blank paragraphs cut at each header. */
  function DocBlocks(paragraphs: seq<string>): seq<seq<string>> {
    Blocks(CleanLines(paragraphs))
  }

  /** The records an upload of test `testId` produces from a document. */
  function Uploaded(testId: int, paragraphs: seq<string>): seq<Record> {
    var blocks := DocBlocks(paragraphs);
    Produced(testId, blocks, Limit(|blocks|))
  }

  /** The records of an upload are those `Maker` makes of the document's blocks, the loop's own view. */
  lemma UploadedFrom(testId: int, paragraphs: seq<string>, blocks: seq<seq<string>>)
    requires blocks == DocBlocks(paragraphs)
    ensures Uploaded(testId, paragraphs) == Collect(blocks, Limit(|blocks|), Maker(testId))
  {
  }

  /** Every record `Maker` makes belongs to one of the four groups. */
  lemma MakerInGroups(testId: int, bank: Groups)
    requires bank.Keys == {1, 2, 3, 4}
    ensures forall idx, block :: Maker(testId)(idx, block).Some? ==> Maker(testId)(idx, block).value.group in bank
  {
    forall idx, block | Maker(testId)(idx, block).Some?
      ensures Maker(testId)(idx, block).value.group in bank
    {
      var r := RecordAt(testId, idx, block);
      assert Placed(r.value.group, r.value);
    }
  }

  /** The identity of a stored question: its test and its position in that test. */
  function Key(r: Record): (int, int) {
    (r.testId, r.index)
  }

  /** Records of a test, in increasing position order, each at a position up to `n` and placed in its group. */
  predicate ProducedShape(testId: int, rs: seq<Record>, n: nat) {
    && (forall k :: 0 <= k < |rs| ==> rs[k].testId == testId && 1 <= rs[k].index <= n && Placed(rs[k].group, rs[k]))
    && (forall k, l :: 0 <= k < l < |rs| ==> rs[k].index < rs[l].index)
  }

  /** A record maker for test `testId` that stamps each record with the test and the block's position. */
  ghost predicate MakesPlaced(mk: (int, seq<string>) -> Option<Record>, testId: int) {
    forall idx, block :: mk(idx, block).Some? ==>
      var r := mk(idx, block).value;
      r.testId == testId && r.index == idx && Placed(r.group, r)
  }

  lemma {:induction false} CollectShape(testId: int, blocks: seq<seq<string>>, n: nat, mk: (int, seq<string>) -> Option<Record>)
    requires n <= |blocks| && MakesPlaced(mk, testId)
    ensures ProducedShape(testId, Collect(blocks, n, mk), n)
    ensures |Collect(blocks, n, mk)| <= n
  {
    if n > 0 {
      CollectShape(testId, blocks, n - 1, mk);
    }
  }

  /** A record is collected exactly when the block at its position makes it. */
  lemma {:induction false} CollectMembers(testId: int, blocks: seq<seq<string>>, n: nat, mk: (int, seq<string>) -> Option<Record>)
    requires n <= |blocks| && MakesPlaced(mk, testId)
    ensures forall r :: r in Collect(blocks, n, mk) ==> 1 <= r.index <= n && mk(r.index, blocks[r.index - 1]) == Some(r)
    ensures forall i :: 0 <= i < n && mk(i + 1, blocks[i]).Some? ==> mk(i + 1, blocks[i]).value in Collect(blocks, n, mk)
  {
    if n > 0 {
      CollectMembers(testId, blocks, n - 1, mk);
    }
  }

  /**
   * Every record an upload produces carries the test's id, a position among the first
   * `n`, and the group of that position with that group's content type; positions
   * increase along the records, and there is at most one record per block.
   */
  lemma ProducedSpec(testId: int, blocks: seq<seq<string>>, n: nat)
    requires n <= |blocks|
    ensures ProducedShape(testId, Produced(testId, blocks, n), n)
    ensures |Produced(testId, blocks, n)| <= n
  {
    assert MakesPlaced(Maker(testId), testId);
    CollectShape(testId, blocks, n, Maker(testId));
  }

  /**
   * The records of an upload are exactly the records the blocks at positions 1 to 17
   * parse into: each comes from the block at its own position, and every such block
   * that parses gives one.
   */
  lemma UploadedSpec(testId: int, paragraphs: seq<string>)
    ensures var blocks := DocBlocks(paragraphs);
            var news := Uploaded(testId, paragraphs);
            && ProducedShape(testId, news, Limit(|blocks|))
            && |news| <= ExamSize
            && (forall r :: r in news ==> 1 <= r.index <= Limit(|blocks|) && RecordAt(testId, r.index, blocks[r.index - 1]) == Some(r))
            && (forall i :: 0 <= i < Limit(|blocks|) && RecordAt(testId, i + 1, blocks[i]).Some? ==>
                  RecordAt(testId, i + 1, blocks[i]).value in news)
  {
    var blocks := DocBlocks(paragraphs);
    ProducedSpec(testId, blocks, Limit(|blocks|));
    assert MakesPlaced(Maker(testId), testId);
    CollectMembers(testId, blocks, Limit(|blocks|), Maker(testId));
  }

  /** The records of group `g`. */
  function InGroup(g: int): Record -> bool {
    (r: Record) => r.group == g
  }

  /** The records not from test `id`. */
  function NotFrom(id: int): Record -> bool {
    (r: Record) => r.testId != id
  }

  function OfGroup(rs: seq<Record>, g: int): seq<Record> {
    Keep(rs, InGroup(g))
  }

  /** No two records share a key. */
  predicate UniqueKeys(rs: seq<Record>) {
    forall k, l :: 0 <= k < l < |rs| ==> Key(rs[k]) != Key(rs[l])
  }

  /**
   * The bank invariant: exactly the four groups, every record in the group of its
   * position with that group's content type, and no question of a test stored twice.
   */
  predicate WellFormed(bank: Groups) {
    && bank.Keys == {1, 2, 3, 4}
    && (forall g, r :: g in bank && r in bank[g] ==> Placed(g, r))
    && (forall g :: g in bank ==> UniqueKeys(bank[g]))
  }

  /** The tests with a question in the bank (`existing_tests`, app.py:431-435). */
  function TestIdsOf(bank: Groups): set<int> {
    set g, r | g in bank && r in bank[g] :: r.testId
  }

  /** `counts`: the number of records per group (app.py:545). */
  function CountsOf(bank: Groups): (c: map<int, nat>)
    requires {1, 2, 3, 4} <= bank.Keys
  {
    map g | g in {1, 2, 3, 4} :: |bank[g]|
  }

  /** All records of the bank. */
  function Total(bank: Groups): nat
    requires {1, 2, 3, 4} <= bank.Keys
  {
    var c := CountsOf(bank);
    c[1] + c[2] + c[3] + c[4]
  }

  /** The bank after appending new records, each to the list of its group. */
  function Appended(bank: Groups, news: seq<Record>): Groups {
    map g | g in bank :: bank[g] + OfGroup(news, g)
  }

  /** What an upload reports. */
  datatype UploadOutcome =
    | Duplicate           // the test is already in the bank
    | NoBlocks            // no question block in the document
    | Added(count: nat)   // the number of records appended

  /** The outcome of uploading a document as test `testId`. */
  function UploadOutcomeOf(bank: Groups, testId: int, paragraphs: seq<string>): UploadOutcome {
    if testId in TestIdsOf(bank) then Duplicate
    else if DocBlocks(paragraphs) == [] then NoBlocks
    else Added(|Uploaded(testId, paragraphs)|)
  }

  /** The bank after uploading a document as test `testId`. */
  function AfterUpload(bank: Groups, testId: int, paragraphs: seq<string>): Groups {
    if UploadOutcomeOf(bank, testId, paragraphs).Added? then Appended(bank, Uploaded(testId, paragraphs)) else bank
  }

  /** The bank after deleting test `id`: each group without that test's records. */
  function Removed(bank: Groups, id: int): Groups {
    Filtered(bank, NotFrom(id))
  }

  /** Each group keeping only the records that pass `p`. */
  function Filtered(bank: Groups, p: Record -> bool): Groups {
    map g | g in bank :: Keep(bank[g], p)
  }

  /** Keeping some records of a list without repeated keys leaves no repeated keys. */
  lemma KeepUnique(rs: seq<Record>, p: Record -> bool)
    requires UniqueKeys(rs)
    ensures UniqueKeys(Keep(rs, p))
  {
    var idx := KeptIdx(rs, p);
    var kept := Keep(rs, p);
    forall k, l | 0 <= k < l < |kept|
      ensures Key(kept[k]) != Key(kept[l])
    {
      assert kept[k] == rs[idx[k]] && kept[l] == rs[idx[l]];
    }
  }

  /** Records in the four groups split into the four group lists without loss. */
  lemma {:induction false} SplitByGroup(rs: seq<Record>)
    requires forall r :: r in rs ==> 1 <= r.group <= 4
    ensures |OfGroup(rs, 1)| + |OfGroup(rs, 2)| + |OfGroup(rs, 3)| + |OfGroup(rs, 4)| == |rs|
  {
    if rs != [] {
      var init := rs[..|rs| - 1];
      assert forall r :: r in init ==> r in rs;
      SplitByGroup(init);
    }
  }

  /** Two banks with the same groups holding the same lists are the same bank. */
  lemma SameGroups(a: Groups, b: Groups)
    requires a.Keys == b.Keys
    requires forall g :: g in a ==> a[g] == b[g]
    ensures a == b
  {
    forall g | g in a ensures g in b && a[g] == b[g] { }
    forall g | g in b ensures g in a { }
  }

  /** Appending one more record adds it to the list of its group only. */
  lemma AppendedStep(bank: Groups, rs: seq<Record>, r: Record)
    requires r.group in bank
    ensures Appended(bank, rs + [r]) == Appended(bank, rs)[r.group := Appended(bank, rs)[r.group] + [r]]
  {
    var a, pre := Appended(bank, rs + [r]), Appended(bank, rs);
    var b := pre[r.group := pre[r.group] + [r]];
    forall g | g in a
      ensures a[g] == b[g]
    {
      KeepSnoc(rs, r, InGroup(g));
      assert a[g] == bank[g] + OfGroup(rs + [r], g);
      assert pre[g] == bank[g] + OfGroup(rs, g);
    }
    SameGroups(a, b);
  }

  /** The records of an upload keep their keys apart: their positions strictly increase. */
  lemma UploadedUnique(testId: int, paragraphs: seq<string>)
    ensures UniqueKeys(Uploaded(testId, paragraphs))
    ensures forall r :: r in Uploaded(testId, paragraphs) ==> r.testId == testId && 1 <= r.group <= 4 && Placed(r.group, r)
  {
    UploadedSpec(testId, paragraphs);
  }

  /** Records of one test appended to records of other tests: no key is repeated. */
  lemma JoinUnique(olds: seq<Record>, extra: seq<Record>, id: int)
    requires UniqueKeys(olds) && UniqueKeys(extra)
    requires forall r :: r in olds ==> r.testId != id
    requires forall r :: r in extra ==> r.testId == id
    ensures UniqueKeys(olds + extra)
  {
    var all := olds + extra;
    forall k, l | 0 <= k < l < |all|
      ensures Key(all[k]) != Key(all[l])
    {
      if l < |olds| {
        assert all[k] == olds[k] && all[l] == olds[l];
      } else if k >= |olds| {
        assert all[k] == extra[k - |olds|] && all[l] == extra[l - |olds|];
      } else {
        assert all[k] in olds && all[l] in extra;
      }
    }
  }

  /** An upload of a new test keeps the bank invariant. */
  lemma UploadPreserves(bank: Groups, testId: int, paragraphs: seq<string>)
    requires WellFormed(bank)
    ensures WellFormed(AfterUpload(bank, testId, paragraphs))
  {
    if UploadOutcomeOf(bank, testId, paragraphs).Added? {
      var news := Uploaded(testId, paragraphs);
      var nb := Appended(bank, news);
      UploadedUnique(testId, paragraphs);
      forall g | g in nb
        ensures UniqueKeys(nb[g])
        ensures forall r :: r in nb[g] ==> Placed(g, r)
      {
        var olds, extra := bank[g], OfGroup(news, g);
        KeepUnique(news, InGroup(g));
        forall r | r in olds
          ensures r.testId != testId
        {
          InTestIds(bank, g, r);
        }
        JoinUnique(olds, extra, testId);
        assert nb[g] == olds + extra;
      }
    }
  }

  /**
   * Uploading a document as test `testId`: a test already in the bank is refused and a
   * document without question blocks adds nothing, both leaving the bank unchanged;
   * otherwise each group gains, at its end, the new records of that group, `added` is
   * the number of records appended (at most 17), and the bank now holds the test
   * exactly when some record was appended.
   */
  lemma UploadSpec(bank: Groups, testId: int, paragraphs: seq<string>)
    requires WellFormed(bank)
    ensures var outcome := UploadOutcomeOf(bank, testId, paragraphs);
            var after := AfterUpload(bank, testId, paragraphs);
            var news := Uploaded(testId, paragraphs);
            && (outcome == Duplicate <==> testId in TestIdsOf(bank))
            && (outcome == NoBlocks <==> testId !in TestIdsOf(bank) && DocBlocks(paragraphs) == [])
            && (!outcome.Added? ==> after == bank)
            && (outcome.Added? ==>
                  && outcome.count == |news| <= ExamSize
                  && after.Keys == bank.Keys
                  && (forall g :: g in bank ==> after[g][..|bank[g]|] == bank[g])
                  && (forall g :: g in bank ==> after[g] == bank[g] + OfGroup(news, g))
                  && Total(after) == Total(bank) + outcome.count
                  && TestIdsOf(after) == TestIdsOf(bank) + (if news == [] then {} else {testId}))
  {
    var outcome := UploadOutcomeOf(bank, testId, paragraphs);
    if outcome.Added? {
      var news := Uploaded(testId, paragraphs);
      UploadedSpec(testId, paragraphs);
      UploadedUnique(testId, paragraphs);
      AppendedTotal(bank, news);
      AppendedPrefix(bank, news);
      UploadTestIds(bank, news, testId);
    }
  }

  /** How many of the blocks at positions 1 to `n` sit at a position of group `g` and make a record. */
  function MadeIn(blocks: seq<seq<string>>, n: nat, mk: (int, seq<string>) -> Option<Record>, g: int): nat
    requires n <= |blocks|
  {
    if n == 0 then 0
    else MadeIn(blocks, n - 1, mk, g) + (if GroupOf(n) == Some(g) && mk(n, blocks[n - 1]).Some? then 1 else 0)
  }

  /** How many of the blocks at positions 1 to `n` of test `testId` belong to group `g` and parse. */
  function ParsedIn(testId: int, blocks: seq<seq<string>>, n: nat, g: int): nat
    requires n <= |blocks|
  {
    MadeIn(blocks, n, Maker(testId), g)
  }

  /** The records of group `g` collected are one per block at a position of that group that makes one. */
  lemma {:induction false} CollectInGroup(testId: int, blocks: seq<seq<string>>, n: nat, mk: (int, seq<string>) -> Option<Record>, g: int)
    requires n <= |blocks| && MakesPlaced(mk, testId)
    ensures |OfGroup(Collect(blocks, n, mk), g)| == MadeIn(blocks, n, mk, g)
  {
    if n > 0 {
      CollectInGroup(testId, blocks, n - 1, mk, g);
      var pre := Collect(blocks, n - 1, mk);
      var rec := mk(n, blocks[n - 1]);
      if rec.Some? {
        assert Collect(blocks, n, mk) == pre + [rec.value];
        KeepSnoc(pre, rec.value, InGroup(g));
        assert InGroup(g)(rec.value) <==> GroupOf(n) == Some(g);
      }
    }
  }

  /** The records of group `g` an upload produces are one per block at a position of that group that parses. */
  lemma ProducedInGroup(testId: int, blocks: seq<seq<string>>, n: nat, g: int)
    requires n <= |blocks|
    ensures |OfGroup(Produced(testId, blocks, n), g)| == ParsedIn(testId, blocks, n, g)
  {
    assert MakesPlaced(Maker(testId), testId);
    CollectInGroup(testId, blocks, n, Maker(testId), g);
  }

  /**
   * The per-group counts after an upload: an accepted upload adds to group `g` one
   * question per block at a position of that group, among the first 17, that parses;
   * a refused one adds nothing.
   */
  lemma UploadCounts(bank: Groups, testId: int, paragraphs: seq<string>)
    requires WellFormed(bank)
    ensures AfterUpload(bank, testId, paragraphs).Keys == {1, 2, 3, 4}
    ensures var blocks := DocBlocks(paragraphs);
            var added := UploadOutcomeOf(bank, testId, paragraphs).Added?;
            forall g :: 1 <= g <= 4 ==>
              CountsOf(AfterUpload(bank, testId, paragraphs))[g] ==
                CountsOf(bank)[g] + (if added then ParsedIn(testId, blocks, Limit(|blocks|), g) else 0)
  {
    if UploadOutcomeOf(bank, testId, paragraphs).Added? {
      var blocks := DocBlocks(paragraphs);
      var news := Uploaded(testId, paragraphs);
      UploadedFrom(testId, paragraphs, blocks);
      AppendedCounts(bank, news);
      forall g | 1 <= g <= 4
        ensures |OfGroup(news, g)| == ParsedIn(testId, blocks, Limit(|blocks|), g)
      {
        ProducedInGroup(testId, blocks, Limit(|blocks|), g);
      }
    }
  }

  /** Appending records adds to each group's count the number of them in that group. */
  lemma AppendedCounts(bank: Groups, news: seq<Record>)
    requires bank.Keys == {1, 2, 3, 4}
    ensures Appended(bank, news).Keys == {1, 2, 3, 4}
    ensures forall g :: 1 <= g <= 4 ==> CountsOf(Appended(bank, news))[g] == CountsOf(bank)[g] + |OfGroup(news, g)|
  {
  }

  /** Appending records of the four groups keeps the groups and adds their number to the total. */
  lemma AppendedTotal(bank: Groups, news: seq<Record>)
    requires bank.Keys == {1, 2, 3, 4}
    requires forall r :: r in news ==> 1 <= r.group <= 4
    ensures Appended(bank, news).Keys == bank.Keys
    ensures Total(Appended(bank, news)) == Total(bank) + |news|
  {
    SplitByGroup(news);
  }

  /** Appending keeps every group's records, in order, at its front. */
  lemma AppendedPrefix(bank: Groups, news: seq<Record>)
    ensures forall g :: g in bank ==> Appended(bank, news)[g][..|bank[g]|] == bank[g]
  {
    var after := Appended(bank, news);
    forall g | g in bank
      ensures after[g][..|bank[g]|] == bank[g]
    {
      assert after[g] == bank[g] + OfGroup(news, g);
    }
  }

  /** Appending records of one test adds that test to the bank's tests, if any record is appended. */
  lemma UploadTestIds(bank: Groups, news: seq<Record>, testId: int)
    requires WellFormed(bank)
    requires forall r :: r in news ==> r.testId == testId && 1 <= r.group <= 4
    ensures TestIdsOf(Appended(bank, news)) == TestIdsOf(bank) + (if news == [] then {} else {testId})
  {
    var after := Appended(bank, news);
    forall g | g in bank
      ensures forall r :: r in after[g] <==> r in bank[g] || (r in news && r.group == g)
    {
      KeepMembers(news, InGroup(g));
    }
    if news != [] {
      var r := news[0];
      assert r in after[r.group];
    }
  }

  /**
   * Deleting test `id` keeps the four groups and removes, from each, exactly the
   * records of that test: a record stays exactly when it was there and comes from
   * another test, and `id` is no longer among the bank's tests.
   */
  lemma DeleteMembers(bank: Groups, id: int)
    ensures Removed(bank, id).Keys == bank.Keys
    ensures forall g, r :: g in bank ==> (r in Removed(bank, id)[g] <==> r in bank[g] && r.testId != id)
    ensures TestIdsOf(Removed(bank, id)) == TestIdsOf(bank) - {id}
  {
    forall g | g in bank
      ensures forall r :: r in Removed(bank, id)[g] <==> r in bank[g] && r.testId != id
    {
      KeepMembers(bank[g], NotFrom(id));
    }
  }

  /**
   * Deleting keeps the order of what stays: each group's remaining records are its old
   * records at the positions holding another test, in increasing position order.
   */
  lemma DeleteKeepsOrder(bank: Groups, id: int, g: int)
    requires g in bank
    ensures var idx := KeptIdx(bank[g], NotFrom(id));
            var rest := Removed(bank, id)[g];
            && |rest| == |idx|
            && (forall k :: 0 <= k < |idx| ==> idx[k] < |bank[g]| && rest[k] == bank[g][idx[k]])
            && (forall k, l :: 0 <= k < l < |idx| ==> idx[k] < idx[l])
            && (forall i :: 0 <= i < |bank[g]| ==> (bank[g][i].testId != id <==> i in idx))
  {
    KeptIdxExact(bank[g], NotFrom(id));
  }

  /** Deleting the same test twice deletes nothing more. */
  lemma DeleteIdempotent(bank: Groups, id: int)
    ensures Removed(Removed(bank, id), id) == Removed(bank, id)
  {
    var once := Removed(bank, id);
    var twice := Removed(once, id);
    forall g | g in twice
      ensures twice[g] == once[g]
    {
      KeepIdempotent(bank[g], NotFrom(id));
    }
    SameGroups(twice, once);
  }

  /** Deleting a test that is not in the bank changes nothing. */
  lemma DeleteAbsent(bank: Groups, id: int)
    requires id !in TestIdsOf(bank)
    ensures Removed(bank, id) == bank
  {
    var after := Removed(bank, id);
    forall g | g in after
      ensures after[g] == bank[g]
    {
      assert forall r :: r in bank[g] ==> r.testId in TestIdsOf(bank);
      KeepAll(bank[g], NotFrom(id));
    }
    SameGroups(after, bank);
  }

  /** Deleting a test keeps the bank invariant. */
  lemma DeletePreserves(bank: Groups, id: int)
    requires WellFormed(bank)
    ensures WellFormed(Removed(bank, id))
  {
    forall g | g in bank
      ensures UniqueKeys(Removed(bank, id)[g])
    {
      KeepUnique(bank[g], NotFrom(id));
    }
  }

  /** Removing test `id` from a list grown by records of that test alone gives back the list. */
  lemma RemoveGrown(olds: seq<Record>, extra: seq<Record>, id: int)
    requires forall r :: r in olds ==> r.testId != id
    requires forall r :: r in extra ==> r.testId == id
    ensures Keep(olds + extra, NotFrom(id)) == olds
  {
    KeepConcat(olds, extra, NotFrom(id));
    KeepAll(olds, NotFrom(id));
    KeepNone(extra, NotFrom(id));
  }

  /** A record of a group of the bank names one of the bank's tests. */
  lemma InTestIds(bank: Groups, g: int, r: Record)
    requires g in bank && r in bank[g]
    ensures r.testId in TestIdsOf(bank)
  {
  }

  /** Removing the test of the only records just appended gives the bank back. */
  lemma AppendThenRemove(bank: Groups, news: seq<Record>, id: int)
    requires id !in TestIdsOf(bank)
    requires forall r :: r in news ==> r.testId == id
    ensures Removed(Appended(bank, news), id) == bank
  {
    var grown := Appended(bank, news);
    var after := Removed(grown, id);
    forall g | g in after
      ensures after[g] == bank[g]
    {
      forall r | r in bank[g]
        ensures r.testId != id
      {
        InTestIds(bank, g, r);
      }
      RemoveGrown(bank[g], OfGroup(news, g), id);
    }
    SameGroups(after, bank);
  }

  /** Deleting a new test right after uploading it gives the bank back as it was. */
  lemma UploadThenDelete(bank: Groups, testId: int, paragraphs: seq<string>)
    requires testId !in TestIdsOf(bank)
    ensures Removed(AfterUpload(bank, testId, paragraphs), testId) == bank
  {
    if UploadOutcomeOf(bank, testId, paragraphs).Added? {
      UploadedUnique(testId, paragraphs);
      AppendThenRemove(bank, Uploaded(testId, paragraphs), testId);
    } else {
      DeleteAbsent(bank, testId);
    }
  }

  /** A refused upload reports why and leaves the bank as it was. */
  lemma UploadRefused(bank: Groups, testId: int, paragraphs: seq<string>)
    requires testId in TestIdsOf(bank) || DocBlocks(paragraphs) == []
    ensures UploadOutcomeOf(bank, testId, paragraphs) == if testId in TestIdsOf(bank) then Duplicate else NoBlocks
    ensures AfterUpload(bank, testId, paragraphs) == bank
  {
  }

  /** An accepted upload appends the records of the document and counts them. */
  lemma UploadAccepted(bank: Groups, testId: int, paragraphs: seq<string>)
    requires testId !in TestIdsOf(bank) && DocBlocks(paragraphs) != []
    ensures UploadOutcomeOf(bank, testId, paragraphs) == Added(|Uploaded(testId, paragraphs)|)
    ensures AfterUpload(bank, testId, paragraphs) == Appended(bank, Uploaded(testId, paragraphs))
  {
  }

  /** The bank part way through filtering each group by `p`: the groups below `g` are done. */
  function FilteredBelow(bank: Groups, p: Record -> bool, g: int): Groups {
    map h | h in bank :: if h < g then Keep(bank[h], p) else bank[h]
  }

  /** Filtering group `g` moves the filtering one group on. */
  lemma FilteredBelowStep(bank: Groups, p: Record -> bool, g: int)
    requires g in bank
    ensures FilteredBelow(bank, p, g + 1) == FilteredBelow(bank, p, g)[g := Keep(FilteredBelow(bank, p, g)[g], p)]
  {
    var a := FilteredBelow(bank, p, g + 1);
    var pre := FilteredBelow(bank, p, g);
    var b := pre[g := Keep(pre[g], p)];
    forall h | h in a
      ensures a[h] == b[h]
    {
      if h == g {
        assert a[h] == Keep(bank[g], p);
        assert pre[g] == bank[g];
      } else if h < g {
        assert a[h] == Keep(bank[h], p) == pre[h];
      } else {
        assert a[h] == bank[h] == pre[h];
      }
    }
    SameGroups(a, b);
  }

  /** Filtering no group leaves the bank. */
  lemma FilteredNone(bank: Groups, p: Record -> bool)
    requires bank.Keys == {1, 2, 3, 4}
    ensures FilteredBelow(bank, p, 1) == bank
  {
    var first := FilteredBelow(bank, p, 1);
    forall h | h in bank
      ensures first[h] == bank[h]
    {
      assert h >= 1;
    }
    SameGroups(first, bank);
  }

  /** Filtering past the last of the four groups filters them all. */
  lemma FilteredAll(bank: Groups, p: Record -> bool)
    requires bank.Keys == {1, 2, 3, 4}
    ensures FilteredBelow(bank, p, 5) == Filtered(bank, p)
  {
    var last := FilteredBelow(bank, p, 5);
    var all := Filtered(bank, p);
    forall h | h in bank
      ensures last[h] == all[h]
    {
      assert h < 5;
    }
    SameGroups(last, all);
  }

  /**
   * One more block: the record it makes, if any, appended to the list of its group, and
   * the count of appended records one higher.
   */
  lemma AppendNext(bank: Groups, blocks: seq<seq<string>>, i: nat, mk: (int, seq<string>) -> Option<Record>)
    requires i < |blocks|
    requires forall idx, block :: mk(idx, block).Some? ==> mk(idx, block).value.group in bank
    ensures var rec, news := mk(i + 1, blocks[i]), Collect(blocks, i, mk);
            var pre := Appended(bank, news);
            && Appended(bank, Collect(blocks, i + 1, mk)) ==
                 (if rec.Some? then pre[rec.value.group := pre[rec.value.group] + [rec.value]] else pre)
            && |Collect(blocks, i + 1, mk)| == |news| + (if rec.Some? then 1 else 0)
  {
    var rec, news := mk(i + 1, blocks[i]), Collect(blocks, i, mk);
    if rec.Some? {
      assert Collect(blocks, i + 1, mk) == news + [rec.value];
      AppendedStep(bank, news, rec.value);
    }
  }

  /** Appending no records leaves the bank. */
  lemma AppendedNone(bank: Groups)
    ensures Appended(bank, []) == bank
  {
    SameGroups(Appended(bank, []), bank);
  }
}
