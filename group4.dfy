/**
 * The multi-part parser `parse_group4_block` (app.py:159-238). After its header, a
 * block splits into an intro (the lines before the first "câu " marker line) and a
 * body (the rest). Without a body the whole block is one single-choice question;
 * otherwise the body is cut at every marker line and each piece is parsed as a
 * single-choice question. Two or more successes give a multi-part question with the
 * intro; exactly one gives that question alone; none gives nothing.
 */
module Group4 {
  import opened Wrappers
  import opened Text
  import opened Seqs
  import opened Patterns
  import opened Parsers

  /** The two shapes a group-4 question takes. */
  datatype Group4Item =
    | Single(item: Mcq)
    | Multi(intro: string, items: seq<Mcq>)

  /** The positions of the marker lines of a body, in order. */
  function Starts(body: seq<string>): (c: seq<nat>)
    ensures IsCutList(c, |body|)
  {
    KeptIdx(body, IsMarker)
  }

  /** The sub-question blocks: from each marker line up to the next one, or to the end. */
  function SubBlocks(body: seq<string>): seq<seq<string>>
  {
    Cut(body, Starts(body))
  }

  /** The sub-question block at position `i` of the marker positions. */
  lemma SubBlockAt(body: seq<string>, i: nat)
    requires i < |Starts(body)|
    ensures var c := Starts(body);
            SubBlocks(body)[i] == body[c[i]..if i + 1 < |c| then c[i + 1] else |body|]
  {
  }

  /** The outcome for the sub-questions that parsed, with the intro. */
  function FromItems(intro: string, items: seq<Mcq>): Option<Group4Item>
  {
    if |items| >= 2 then Some(Multi(intro, items))
    else if |items| == 1 then Some(Single(items[0]))
    else None
  }

  /** What `parse_group4_block` returns for a block. */
  function Group4Of(block: seq<string>): Option<Group4Item>
  {
    Group4Lines(DropHeader(CleanLines(block)))
  }

  /** What `parse_group4_block` returns once the block is cleaned and its header dropped. */
  function Group4Lines(lines: seq<string>): Option<Group4Item>
  {
    if lines == [] then None
    else
      var f := FirstWhere(lines, IsMarker);
      if f == |lines| then
        match McqOf(lines)
        case Some(q) => Some(Single(q))
        case None => None
      else
        FromItems(Strip(JoinLines(lines[..f])), Choose(SubBlocks(lines[f..]), McqOf))
  }

  /**
   * The first loop of `parse_group4_block`, for any test of a marker line: the lines
   * before the first marker line are intro, the rest body.
   */
  method SplitIntro<T>(lines: seq<T>, isMarker: T -> bool) returns (introLines: seq<T>, bodyLines: seq<T>)
    ensures var f := FirstWhere(lines, isMarker);
            introLines == lines[..f] && bodyLines == lines[f..]
  {
    ghost var f := FirstWhere(lines, isMarker);
    introLines, bodyLines := [], [];
    var startedBody := false;
    for i := 0 to |lines|
      invariant startedBody <==> f < i
      invariant introLines == lines[..if f < i then f else i]
      invariant bodyLines == if f < i then lines[f..i] else []
    {
      var line := lines[i];
      if !startedBody && isMarker(line) {
        startedBody := true;
        bodyLines := bodyLines + [line];
      } else if !startedBody {
        introLines := introLines + [line];
      } else {
        bodyLines := bodyLines + [line];
      }
    }
  }

  /** The second loop: the positions of the marker lines of the body. */
  method MarkerStarts(bodyLines: seq<string>) returns (starts: seq<nat>)
    ensures starts == Starts(bodyLines)
  {
    starts := [];
    for idx := 0 to |bodyLines|
      invariant starts == KeptIdx(bodyLines[..idx], IsMarker)
    {
      KeptIdxStep(bodyLines, idx, IsMarker);
      if IsMarker(bodyLines[idx]) {
        starts := starts + [idx];
      }
    }
    SliceAll(bodyLines);
  }

  /** The third loop: each marker-to-next-marker slice parsed as a single-choice question, failures dropped. */
  method ParseSubBlocks(bodyLines: seq<string>, starts: seq<nat>) returns (subItems: seq<Mcq>)
    requires starts == Starts(bodyLines)
    ensures subItems == Choose(SubBlocks(bodyLines), McqOf)
  {
    ghost var pieces := SubBlocks(bodyLines);
    subItems := [];
    for i := 0 to |starts|
      invariant subItems == Choose(pieces[..i], McqOf)
    {
      var item := ParseSubBlock(bodyLines, starts, i);
      ChooseNext(pieces, i, McqOf, subItems, item);
      if item.Some? {
        subItems := subItems + [item.value];
      }
    }
    SliceAll(pieces);
  }

  /** One pass of the third loop: the slice from the `i`-th marker line up to the next one (or the end), parsed. */
  method ParseSubBlock(bodyLines: seq<string>, starts: seq<nat>, i: nat) returns (item: Option<Mcq>)
    requires starts == Starts(bodyLines) && i < |starts|
    ensures item == McqOf(SubBlocks(bodyLines)[i])
  {
    var s := starts[i];
    var e := if i + 1 < |starts| then starts[i + 1] else |bodyLines|;
    var subLines := bodyLines[s..e];
    SubBlockAt(bodyLines, i);
    item := ParseSingleMcq(subLines);
  }

  /** `parse_group4_block`: strip and drop blank lines, drop the header, then parse the rest. */
  method ParseGroup4(block: seq<string>) returns (r: Option<Group4Item>)
    ensures r == Group4Of(block)
  {
    var lines := CleanLines(block);
    if lines == [] {
      return None;
    }
    if IsHeader(lines[0]) {
      lines := lines[1..];
    }
    if lines == [] {
      return None;
    }
    r := ParseGroup4Lines(lines);
  }

  /** `parse_group4_block` after the header: the single-question fallback, or the sub-questions. */
  method ParseGroup4Lines(lines: seq<string>) returns (r: Option<Group4Item>)
    requires lines != []
    ensures r == Group4Lines(lines)
  {
    var introLines, bodyLines := SplitIntro(lines, IsMarker);
    if bodyLines == [] {
      // no "câu " line: the block is one single-choice question
      var item := ParseSingleMcq(lines);
      if item.None? {
        return None;
      }
      return Some(Single(item.value));
    }
    var starts := MarkerStarts(bodyLines);
    var subItems := ParseSubBlocks(bodyLines, starts);

    var intro := Strip(JoinLines(introLines));
    if |subItems| >= 2 {
      return Some(Multi(intro, subItems));
    } else if |subItems| == 1 {
      return Some(Single(subItems[0]));
    } else {
      return None;
    }
  }

  /**
   * A body that opens with a marker line is cut into sub-question blocks that give the
   * body back in order, each opening with a marker line and holding no other.
   */
  lemma SubBlocksPartition(body: seq<string>)
    requires body != [] && IsMarker(body[0])
    ensures Flatten(SubBlocks(body)) == body
    ensures forall k :: 0 <= k < |SubBlocks(body)| ==> SubBlocks(body)[k] != [] && IsMarker(SubBlocks(body)[k][0])
    ensures forall k, j :: 0 <= k < |SubBlocks(body)| && 0 < j < |SubBlocks(body)[k]| ==> !IsMarker(SubBlocks(body)[k][j])
  {
    KeptIdxExact(body, IsMarker);
    CutAtPassing(body, IsMarker, Starts(body));
  }

  /**
   * `parse_group4_block` without any marker line: nothing for an empty block, and
   * otherwise the whole block parsed as one single-choice question.
   */
  lemma Group4NoMarker(lines: seq<string>)
    requires forall j :: 0 <= j < |lines| ==> !IsMarker(lines[j])
    ensures Group4Lines(lines) == if lines != [] && McqOf(lines).Some? then Some(Single(McqOf(lines).value)) else None
  {
    if lines != [] {
      assert FirstWhere(lines, IsMarker) == |lines|;
    }
  }

  /**
   * `parse_group4_block` with a marker line: the intro is every line before the first
   * marker, the rest opens with a marker line (so `SubBlocksPartition` cuts it into
   * sub-question blocks), and the outcome is decided by the sub-questions that parse.
   */
  lemma Group4WithMarker(lines: seq<string>, f: nat)
    requires f == FirstWhere(lines, IsMarker) && f < |lines|
    ensures forall j :: 0 <= j < f ==> !IsMarker(lines[j])
    ensures IsMarker(lines[f..][0])
    ensures Group4Lines(lines) == FromItems(Strip(JoinLines(lines[..f])), Choose(SubBlocks(lines[f..]), McqOf))
  {
  }

  /**
   * The outcome from the sub-question blocks, whatever parses them: nothing exactly
   * when no block parses, the one question alone when exactly one does, and otherwise
   * the intro with every parsed question (in block order, as `Seqs.ChosenIdx` states).
   */
  lemma FromItemsSpec<T>(intro: string, pieces: seq<T>, parse: T -> Option<Mcq>)
    ensures var items := Choose(pieces, parse);
            var r := FromItems(intro, items);
            && (r.None? <==> forall k :: 0 <= k < |pieces| ==> parse(pieces[k]).None?)
            && (r.Some? && r.value.Single? <==> |items| == 1)
            && (|items| == 1 ==> r == Some(Single(items[0])))
            && (r.Some? && r.value.Multi? <==> |items| >= 2)
            && (|items| >= 2 ==> r == Some(Multi(intro, items)))
  {
    var items := Choose(pieces, parse);
    ChooseEmpty(pieces, parse);
    if |items| == 0 {
      assert FromItems(intro, items).None?;
    } else if |items| == 1 {
      assert FromItems(intro, items) == Some(Single(items[0]));
    } else {
      assert FromItems(intro, items) == Some(Multi(intro, items));
    }
  }
}
