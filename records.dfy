/**
 * The records of the question bank (app.py:449-540): the group of each question
 * position (`get_group_for_index`, app.py:296-312), the parser each group uses, and
 * the record a parsed block becomes.
 */
module Records {
  import opened Wrappers
  import opened Text
  import opened Seqs
  import opened Parsers
  import opened Group4

  /** What a stored question holds, by its `type`: mcq, order, gender_block or mcq_multi. */
  datatype Body =
    | McqBody(q: Mcq)
    | OrderBody(order: Order)
    | GenderBody(speakers: seq<GenderItem>)
    | MultiBody(intro: string, items: seq<Mcq>)

  /** A stored question: its group, the test it came from, its 1-based position in that test, and its content. */
  datatype Record = Record(group: int, testId: int, index: int, body: Body)

  /** The questions per test. */
  const ExamSize := 17

  /** `get_group_for_index`: positions 1-13 are group 1, 14 group 2, 15 group 3, 16-17 group 4. */
  function GroupOf(idx: int): (g: Option<int>)
    ensures g == Some(1) <==> 1 <= idx <= 13
    ensures g == Some(2) <==> idx == 14
    ensures g == Some(3) <==> idx == 15
    ensures g == Some(4) <==> idx == 16 || idx == 17
    ensures g.None? <==> !(1 <= idx <= ExamSize)
  {
    if 1 <= idx <= 13 then Some(1)
    else if idx == 14 then Some(2)
    else if idx == 15 then Some(3)
    else if idx == 16 || idx == 17 then Some(4)
    else None
  }

  /** The content types a group holds: single-choice, ordering, speaker, and single- or multi-part. */
  predicate KindFits(g: int, body: Body) {
    match body
    case McqBody(_) => g == 1 || g == 4
    case OrderBody(_) => g == 2
    case GenderBody(_) => g == 3
    case MultiBody(_, _) => g == 4
  }

  /** The parser each group uses, with its result stored as that group's content type. */
  function ParseBlock(g: int, block: seq<string>): (r: Option<Body>)
    ensures r.Some? ==> KindFits(g, r.value)
  {
    if g == 4 then Group4Body(Group4Of(block))
    else if g == 1 then
      match Group1Of(block)
      case Some(q) => Some(McqBody(q))
      case None => None
    else if g == 2 then
      match OrderOf(block)
      case Some(o) => Some(OrderBody(o))
      case None => None
    else if g == 3 then
      match GenderOf(block)
      case Some(items) => Some(GenderBody(items))
      case None => None
    else None
  }

  /** A group-4 question as stored: a single question as single-choice, a multi-part one with its intro and parts. */
  function Group4Body(item: Option<Group4Item>): (r: Option<Body>)
    ensures r.Some? ==> KindFits(4, r.value)
  {
    match item
    case Some(Single(q)) => Some(McqBody(q))
    case Some(Multi(intro, items)) => Some(MultiBody(intro, items))
    case None => None
  }

  /** A record that sits in the group its position belongs to, with that group's content type. */
  predicate Placed(g: int, r: Record) {
    r.group == g && GroupOf(r.index) == Some(g) && KindFits(g, r.body)
  }

  /** The record the block at 1-based position `idx` of a test becomes, if it parses. */
  function RecordAt(testId: int, idx: int, block: seq<string>): (r: Option<Record>)
    ensures r.Some? ==> r.value.testId == testId && r.value.index == idx && Placed(r.value.group, r.value)
    ensures r.Some? <==> GroupOf(idx).Some? && ParseBlock(GroupOf(idx).value, block).Some?
  {
    match GroupOf(idx)
    case None => None
    case Some(g) =>
      match ParseBlock(g, block)
      case Some(body) => Some(Record(g, testId, idx, body))
      case None => None
  }

  /** The upload loop's dispatch: the group's parser run on the block, its result wrapped as that group's content. */
  method ParseBlockAt(g: int, block: seq<string>) returns (r: Option<Body>)
    ensures r == ParseBlock(g, block)
  {
    if g == 1 {
      var parsed := ParseGroup1(block);
      match parsed
      case Some(q) => r := Some(McqBody(q));
      case None => r := None;
    } else if g == 2 {
      var parsed := ParseOrder(block);
      match parsed
      case Some(o) => r := Some(OrderBody(o));
      case None => r := None;
    } else if g == 3 {
      var parsed := ParseGender(block);
      match parsed
      case Some(items) => r := Some(GenderBody(items));
      case None => r := None;
    } else if g == 4 {
      var parsed := ParseGroup4(block);
      match parsed
      case Some(Single(q)) => r := Some(McqBody(q));
      case Some(Multi(intro, items)) => r := Some(MultiBody(intro, items));
      case None => r := None;
    } else {
      r := None;
    }
  }

  /** One pass of the upload loop for a position inside the test: the group of the position, then its parser. */
  method MakeRecord(testId: int, idx: int, block: seq<string>) returns (r: Option<Record>)
    requires 1 <= idx <= ExamSize
    ensures r == RecordAt(testId, idx, block)
  {
    var g := GroupOf(idx).value;
    var parsed := ParseBlockAt(g, block);
    r := if parsed.Some? then Some(Record(g, testId, idx, parsed.value)) else None;
  }
}
