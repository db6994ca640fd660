/**
 * Splitting a document's lines into question blocks (`extract_raw_questions_from_docx`,
 * app.py:82-99). A header line closes the block being accumulated and opens a new one;
 * every other line joins the current block. Lines before the first header form a block
 * of their own.
 */
module Segmenter {
  import opened Patterns
  import opened Seqs

  /**
   * The blocks of `lines` when the lines satisfying `opens` open new blocks, defined line
   * by line from the left as the loop builds them: such a line, or the very first line,
   * opens a new block; any other line extends the last one.
   */
  function SplitAt<T>(lines: seq<T>, opens: T -> bool): seq<seq<T>>
  {
    if lines == [] then []
    else
      var pre := SplitAt(lines[..|lines| - 1], opens);
      var x := lines[|lines| - 1];
      if opens(x) || pre == [] then pre + [[x]]
      else pre[..|pre| - 1] + [pre[|pre| - 1] + [x]]
  }

  /** The question blocks of a document. */
  function Blocks(lines: seq<string>): seq<seq<string>>
  {
    SplitAt(lines, IsHeader)
  }

  /** The number of lines satisfying `opens`. */
  function Count<T>(lines: seq<T>, opens: T -> bool): nat
  {
    if lines == [] then 0
    else Count(lines[..|lines| - 1], opens) + (if opens(lines[|lines| - 1]) then 1 else 0)
  }

  /**
   * The shape of a segmentation: no block is empty, every block but the first opens
   * with an opening line, and no block holds an opening line anywhere but first.
   */
  ghost predicate WellSplit<T>(blocks: seq<seq<T>>, opens: T -> bool)
  {
    && (forall k :: 0 <= k < |blocks| ==> blocks[k] != [])
    && (forall k :: 0 < k < |blocks| ==> opens(blocks[k][0]))
    && (forall k, j :: 0 <= k < |blocks| && 0 < j < |blocks[k]| ==> !opens(blocks[k][j]))
  }

  /** The blocks, put back together, are the original lines in their original order. */
  lemma {:induction false} SplitPartition<T>(lines: seq<T>, opens: T -> bool)
    ensures Flatten(SplitAt(lines, opens)) == lines
  {
    if lines != [] {
      var init := lines[..|lines| - 1];
      var x := lines[|lines| - 1];
      var pre := SplitAt(init, opens);
      SplitPartition(init, opens);
      assert lines == init + [x];
      if !(opens(x) || pre == []) {
        var m := |pre| - 1;
        assert pre == pre[..m] + [pre[m]];
        assert Flatten(pre) == Flatten(pre[..m]) + pre[m];
        assert SplitAt(lines, opens)[..m] == pre[..m];
        assert Flatten(SplitAt(lines, opens)) == Flatten(pre[..m]) + (pre[m] + [x]);
      }
    }
  }

  /** One more line either opens a new block or extends the last one. */
  lemma SplitStep<T>(lines: seq<T>, i: nat, opens: T -> bool)
    requires i < |lines|
    ensures var pre := SplitAt(lines[..i], opens);
            SplitAt(lines[..i + 1], opens) ==
              if opens(lines[i]) || pre == [] then pre + [[lines[i]]]
              else pre[..|pre| - 1] + [pre[|pre| - 1] + [lines[i]]]
  {
    assert lines[..i + 1][..i] == lines[..i];
  }

  /** The first block starts with the first line, and there are blocks exactly when there are lines. */
  lemma {:induction false} SplitFirst<T>(lines: seq<T>, opens: T -> bool)
    ensures lines == [] <==> SplitAt(lines, opens) == []
    ensures lines != [] ==> SplitAt(lines, opens)[0] != [] && SplitAt(lines, opens)[0][0] == lines[0]
  {
    if lines != [] {
      var init := lines[..|lines| - 1];
      SplitFirst(init, opens);
      if init != [] {
        assert init[0] == lines[0];
      }
    }
  }

  /** No block is empty, and every block after the first starts with an opening line. */
  lemma {:induction false} SplitOpens<T>(lines: seq<T>, opens: T -> bool)
    ensures forall k :: 0 <= k < |SplitAt(lines, opens)| ==> SplitAt(lines, opens)[k] != []
    ensures forall k :: 0 < k < |SplitAt(lines, opens)| ==> opens(SplitAt(lines, opens)[k][0])
  {
    if lines != [] {
      var init := lines[..|lines| - 1];
      var x := lines[|lines| - 1];
      var pre := SplitAt(init, opens);
      var r := SplitAt(lines, opens);
      SplitOpens(init, opens);
      if opens(x) || pre == [] {
        assert r == pre + [[x]];
      } else {
        var m := |pre| - 1;
        assert r == pre[..m] + [pre[m] + [x]];
        assert r[m][0] == pre[m][0];
      }
    }
  }

  /** Inside a block, only the first line may be an opening line. */
  lemma {:induction false} SplitInner<T>(lines: seq<T>, opens: T -> bool)
    ensures forall k, j :: 0 <= k < |SplitAt(lines, opens)| && 0 < j < |SplitAt(lines, opens)[k]| ==>
              !opens(SplitAt(lines, opens)[k][j])
  {
    if lines != [] {
      var init := lines[..|lines| - 1];
      var x := lines[|lines| - 1];
      var pre := SplitAt(init, opens);
      var r := SplitAt(lines, opens);
      SplitInner(init, opens);
      if opens(x) || pre == [] {
        assert r == pre + [[x]];
      } else {
        var m := |pre| - 1;
        assert r == pre[..m] + [pre[m] + [x]];
        forall k, j | 0 <= k < |r| && 0 < j < |r[k]| ensures !opens(r[k][j]) {
          if k == m && j < |pre[m]| {
            assert r[k][j] == pre[m][j];
          }
        }
      }
    }
  }

  /** A block opens exactly at each opening line (and at the first line). */
  lemma SplitShape<T>(lines: seq<T>, opens: T -> bool)
    ensures WellSplit(SplitAt(lines, opens), opens)
    ensures lines == [] <==> SplitAt(lines, opens) == []
    ensures lines != [] ==> SplitAt(lines, opens)[0][0] == lines[0]
  {
    SplitFirst(lines, opens);
    SplitOpens(lines, opens);
    SplitInner(lines, opens);
  }

  /** There is one block per opening line, plus one when the first line does not open a block. */
  lemma {:induction false} SplitCount<T>(lines: seq<T>, opens: T -> bool)
    ensures |SplitAt(lines, opens)| == Count(lines, opens) + (if lines != [] && !opens(lines[0]) then 1 else 0)
  {
    if lines != [] {
      var init := lines[..|lines| - 1];
      SplitCount(init, opens);
      SplitShape(init, opens);
      if init != [] {
        assert init[0] == lines[0];
      }
    }
  }

  /**
   * The question blocks partition the document: concatenated they give back its lines,
   * a block opens exactly at each header (and at the first line), and there is one block
   * per header plus one for lines ahead of the first header.
   */
  lemma BlocksPartition(lines: seq<string>)
    ensures Flatten(Blocks(lines)) == lines
    ensures WellSplit(Blocks(lines), IsHeader)
    ensures lines != [] ==> Blocks(lines)[0][0] == lines[0]
    ensures |Blocks(lines)| == Count(lines, IsHeader) + (if lines != [] && !IsHeader(lines[0]) then 1 else 0)
  {
    SplitPartition(lines, IsHeader);
    SplitShape(lines, IsHeader);
    SplitCount(lines, IsHeader);
  }

  /**
   * The segmentation loop of app.py:82-99, with `flush_block` inlined, written over any
   * line type and any "opens a block" test so that the header pattern stays out of the proof.
   */
  method SplitLines<T>(lines: seq<T>, opens: T -> bool) returns (blocks: seq<seq<T>>)
    ensures blocks == SplitAt(lines, opens)
  {
    blocks := [];
    var current: seq<T> := [];
    for i := 0 to |lines|
      invariant current == [] <==> i == 0
      invariant blocks + (if current == [] then [] else [current]) == SplitAt(lines[..i], opens)
    {
      var line := lines[i];
      SplitStep(lines, i, opens);
      SplitFirst(lines[..i], opens);
      ghost var pre, before := SplitAt(lines[..i], opens), current;
      if opens(line) {
        // flush_block()
        if current != [] {
          blocks := blocks + [current];
        }
        current := [line];
        assert blocks == pre;
      } else {
        current := current + [line];
        if i > 0 {
          assert pre == blocks + [before];
          assert pre[..|pre| - 1] == blocks;
        } else {
          assert pre == [] && blocks == [] && current == [line];
        }
      }
      assert blocks + [current] == SplitAt(lines[..i + 1], opens);
    }
    // flush_block()
    if current != [] {
      blocks := blocks + [current];
    }
    SliceAll(lines);
  }

  /** `extract_raw_questions_from_docx` after reading the paragraphs: the lines cut into question blocks at each header. */
  method Segment(lines: seq<string>) returns (questions: seq<seq<string>>)
    ensures questions == Blocks(lines)
    ensures Flatten(questions) == lines && WellSplit(questions, IsHeader)
  {
    questions := SplitLines(lines, IsHeader);
    BlocksPartition(lines);
  }
}
