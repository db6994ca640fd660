/**
 * Drawing a practice exam from the bank (app.py:689-722). The exam is allowed when
 * the groups hold at least 13, 1, 1 and 2 records; it is then 13 distinct group-1
 * records, one group-2 record, one group-3 record and 2 distinct group-4 records, in
 * that order, and every ordering question gets a shuffled view of its items. The
 * random draws are inputs: the positions `random.sample` and `random.choice` pick, and
 * the permutation `random.sample(items, len(items))` applies.
 */
module Exam {
  import opened Wrappers
  import opened Seqs
  import opened Parsers
  import opened Records
  import opened Bank

  /** `can_generate`: the quota guard of app.py:689-694. */
  predicate CanGenerate(bank: Groups)
    requires {1, 2, 3, 4} <= bank.Keys
  {
    var c := CountsOf(bank);
    c[1] >= 13 && c[2] >= 1 && c[3] >= 1 && c[4] >= 2
  }

  /**
   * Positions a draw may pick: 13 distinct positions of group 1, one of group 2, one
   * of group 3 and 2 distinct positions of group 4.
   */
  predicate PicksFit(bank: Groups, picks1: seq<nat>, pick2: nat, pick3: nat, picks4: seq<nat>) {
    && {1, 2, 3, 4} <= bank.Keys
    && |picks1| == 13 && AllDistinct(picks1) && AllBelow(picks1, |bank[1]|)
    && pick2 < |bank[2]| && pick3 < |bank[3]|
    && |picks4| == 2 && AllDistinct(picks4) && AllBelow(picks4, |bank[4]|)
  }

  /** `exam_questions`: the drawn records, questions 1-13, 14, 15, then 16-17. */
  function Drawn(bank: Groups, picks1: seq<nat>, pick2: nat, pick3: nat, picks4: seq<nat>): seq<Record>
    requires PicksFit(bank, picks1, pick2, pick3, picks4)
  {
    Pick(bank[1], picks1) + [bank[2][pick2]] + [bank[3][pick3]] + Pick(bank[4], picks4)
  }

  /** The guard holds exactly when a draw is possible: it suffices for some draw, and any draw needs it. */
  lemma QuotaExact(bank: Groups, picks1: seq<nat>, pick2: nat, pick3: nat, picks4: seq<nat>)
    requires {1, 2, 3, 4} <= bank.Keys
    ensures CanGenerate(bank) ==> PicksFit(bank, Iota(13), 0, 0, Iota(2))
    ensures PicksFit(bank, picks1, pick2, pick3, picks4) ==> CanGenerate(bank)
  {
    if PicksFit(bank, picks1, pick2, pick3, picks4) {
      DistinctBelow(picks1, |bank[1]|);
      DistinctBelow(picks4, |bank[4]|);
    }
  }

  /** Two different positions of a list without repeated keys hold different records. */
  lemma UniqueApart(rs: seq<Record>, i: nat, j: nat)
    requires UniqueKeys(rs) && i < |rs| && j < |rs| && i != j
    ensures rs[i] != rs[j]
  {
    if i < j {
      assert Key(rs[i]) != Key(rs[j]);
    } else {
      assert Key(rs[j]) != Key(rs[i]);
    }
  }

  /**
   * A draw from a well-formed bank is 17 records, each taken from the group its exam
   * position belongs to, no record twice, and the ordering question exactly at question 14.
   */
  lemma DrawnSpec(bank: Groups, picks1: seq<nat>, pick2: nat, pick3: nat, picks4: seq<nat>)
    requires WellFormed(bank) && PicksFit(bank, picks1, pick2, pick3, picks4)
    ensures var exam := Drawn(bank, picks1, pick2, pick3, picks4);
            && |exam| == ExamSize
            && (forall k :: 0 <= k < |exam| ==> GroupOf(k + 1) == Some(exam[k].group) && exam[k] in bank[exam[k].group])
            && AllDistinct(exam)
            && (forall k :: 0 <= k < |exam| ==> (exam[k].body.OrderBody? <==> k == 13))
  {
    var exam := Drawn(bank, picks1, pick2, pick3, picks4);
    forall k | 0 <= k < |exam|
      ensures GroupOf(k + 1) == Some(exam[k].group) && exam[k] in bank[exam[k].group]
      ensures exam[k].body.OrderBody? <==> k == 13
    {
      var g := if k < 13 then 1 else if k == 13 then 2 else if k == 14 then 3 else 4;
      if k < 13 {
        assert exam[k] == bank[1][picks1[k]];
      } else if k == 13 {
        assert exam[k] == bank[2][pick2];
      } else if k == 14 {
        assert exam[k] == bank[3][pick3];
      } else {
        assert exam[k] == bank[4][picks4[k - 15]];
      }
      assert exam[k] in bank[g];
      assert Placed(g, exam[k]);
    }
    forall k, l | 0 <= k < l < |exam|
      ensures exam[k] != exam[l]
    {
      if exam[k].group == exam[l].group {
        if l < 13 {
          UniqueApart(bank[1], picks1[k], picks1[l]);
        } else if k >= 15 {
          UniqueApart(bank[4], picks4[k - 15], picks4[l - 15]);
        }
      }
    }
  }

  /** Every ordering question of the exam comes with a permutation of its items. */
  predicate ShufflesFit(exam: seq<Record>, perms: seq<seq<nat>>) {
    && |perms| == |exam|
    && forall k :: 0 <= k < |exam| && exam[k].body.OrderBody? ==> IsPermutation(perms[k], |exam[k].body.order.items|)
  }

  /** An exam question with the shuffled items shown for an ordering question (`shuffled_items`). */
  datatype Entry = Entry(rec: Record, shuffled: Option<seq<string>>)

  /** The shuffled view of a record: its items in permuted order for an ordering question, nothing otherwise. */
  function ShuffledView(rec: Record, perm: seq<nat>): Option<seq<string>>
    requires rec.body.OrderBody? ==> IsPermutation(perm, |rec.body.order.items|)
  {
    if rec.body.OrderBody? then
      PickPermutation(rec.body.order.items, perm);
      Some(Pick(rec.body.order.items, perm))
    else None
  }

  /** An ordering question's shuffled view holds its items, each as often, and nothing else; other questions get none. */
  lemma ShuffledViewSpec(rec: Record, perm: seq<nat>)
    requires rec.body.OrderBody? ==> IsPermutation(perm, |rec.body.order.items|)
    ensures ShuffledView(rec, perm).Some? <==> rec.body.OrderBody?
    ensures rec.body.OrderBody? ==>
              && |ShuffledView(rec, perm).value| == |rec.body.order.items|
              && multiset(ShuffledView(rec, perm).value) == multiset(rec.body.order.items)
  {
    if rec.body.OrderBody? {
      PickPermutation(rec.body.order.items, perm);
      PermutationBounds(perm, |rec.body.order.items|);
    }
  }

  /** The exam's questions with their shuffled views. */
  function Annotated(exam: seq<Record>, perms: seq<seq<nat>>): seq<Entry>
    requires ShufflesFit(exam, perms)
  {
    seq(|exam|, k requires 0 <= k < |exam| => Entry(exam[k], ShuffledView(exam[k], perms[k])))
  }

  /** The loop of app.py:718-720: a shuffled copy of the items for each ordering question. */
  method Annotate(exam: seq<Record>, perms: seq<seq<nat>>) returns (entries: seq<Entry>)
    requires ShufflesFit(exam, perms)
    ensures entries == Annotated(exam, perms)
    ensures forall k :: 0 <= k < |entries| ==> entries[k].rec == exam[k] && (entries[k].shuffled.Some? <==> exam[k].body.OrderBody?)
  {
    entries := [];
    for k := 0 to |exam|
      invariant |entries| == k
      invariant forall j :: 0 <= j < k ==> entries[j] == Entry(exam[j], ShuffledView(exam[j], perms[j]))
    {
      var q := exam[k];
      var shuffled := None;
      if q.body.OrderBody? {
        PickPermutation(q.body.order.items, perms[k]);
        shuffled := Some(Pick(q.body.order.items, perms[k]));
      }
      entries := entries + [Entry(q, shuffled)];
    }
  }
}
