/**
 * The line patterns of app.py written as string functions: the question header
 * `^\s*Question\s*\d+\s*[.:)\-/]` (matched at the start), the answer line
 * `Answer\s*:\s*(.+)` (searched anywhere), the option line `^\s*([A-D])\s*[.)]\s*(.+)`,
 * the speaker line `(.+)-\s*(woman|man|both)\s*$`, and the sub-question marker
 * "câu ". All patterns are case-insensitive through `Lower`.
 */
module Patterns {
  import opened Wrappers
  import opened Text

  /** Length of the run of ASCII digits that starts `s`. */
  function DigitRun(s: string): (d: nat)
    ensures d <= |s|
    ensures forall k :: 0 <= k < d ==> IsDigit(s[k])
    ensures d < |s| ==> !IsDigit(s[d])
  {
    if s != [] && IsDigit(s[0]) then 1 + DigitRun(s[1..]) else 0
  }

  predicate IsHeaderMark(c: char) {
    c == '.' || c == ':' || c == ')' || c == '-' || c == '/'
  }

  /** The question header: "Question", digits, then one of `. : ) - /`, with optional whitespace between. */
  predicate IsHeader(line: string) {
    HeaderWord(TrimLeft(line))
  }

  /** The header after its leading whitespace: "question" in any case, then the number part. */
  predicate HeaderWord(s: string) {
    |s| >= 8 && LowerStr(s[..8]) == "question" && HeaderNumber(TrimLeft(s[8..]))
  }

  /** The header after "question" and whitespace: digits, then whitespace and the mark. */
  predicate HeaderNumber(t: string) {
    var d := DigitRun(t);
    d > 0 && HeaderMark(TrimLeft(t[d..]))
  }

  predicate HeaderMark(u: string) {
    u != [] && IsHeaderMark(u[0])
  }

  /** Every character of `s` is a digit. */
  predicate AllDigits(s: string) {
    forall k :: 0 <= k < |s| ==> IsDigit(s[k])
  }

  /** From `c`: whitespace up to the mark at `e`. */
  predicate MarkAt(line: string, c: int, e: int) {
    0 <= c <= e < |line| && AllSpace(line[c..e]) && IsHeaderMark(line[e])
  }

  /** From `b`: digits up to `c`, then whitespace and the mark at `e`. */
  predicate NumberAt(line: string, b: int, c: int, e: int) {
    0 <= b < c <= |line| && AllDigits(line[b..c]) && MarkAt(line, c, e)
  }

  /** From `a`: "question" in any case, whitespace up to `b`, then the number and the mark. */
  predicate WordAt(line: string, a: int, b: int, c: int, e: int) {
    && 0 <= a && a + 8 <= b <= |line|
    && LowerStr(line[a..a + 8]) == "question"
    && AllSpace(line[a + 8..b])
    && NumberAt(line, b, c, e)
  }

  /**
   * The header pattern as a split of the line: whitespace before `a`, "question" in any
   * case, whitespace up to `b`, digits up to `c`, whitespace up to the mark at `e`.
   */
  predicate HeaderAt(line: string, a: int, b: int, c: int, e: int) {
    0 <= a <= |line| && AllSpace(line[..a]) && WordAt(line, a, b, c, e)
  }

  /** The digit run of digits followed by a string that does not start with a digit. */
  lemma {:induction false} DigitRunPast(ds: string, rest: string)
    requires AllDigits(ds)
    requires rest == [] || !IsDigit(rest[0])
    ensures DigitRun(ds + rest) == |ds|
  {
    if ds != [] {
      assert (ds + rest)[1..] == ds[1..] + rest;
      DigitRunPast(ds[1..], rest);
    }
  }

  /** The digit run is a prefix of digits. */
  lemma DigitRunSplit(t: string)
    ensures AllDigits(t[..DigitRun(t)])
  {
  }

  /** A digit is not whitespace. */
  lemma DigitNotSpace(c: char)
    requires IsDigit(c)
    ensures !IsSpace(c)
  {
  }

  /** A string that lower-cases to a word starting with an ASCII letter does not start with whitespace. */
  lemma LowerWordStart(s: string, w: string)
    requires LowerStr(s) == w && w != [] && 'a' <= w[0] <= 'z'
    ensures !IsSpace(s[0])
  {
    assert Lower(s[0]) == w[0];
  }

  /**
   * The header test accepts exactly the lines that split as the pattern says: `IsHeader`
   * takes the one split in which every whitespace run is as long as it can be.
   */
  lemma HeaderSpec(line: string)
    ensures IsHeader(line) <==> exists a, b, c, e :: HeaderAt(line, a, b, c, e)
  {
    if IsHeader(line) {
      HeaderSplits(line);
    }
    if exists a, b, c, e :: HeaderAt(line, a, b, c, e) {
      var a, b, c, e :| HeaderAt(line, a, b, c, e);
      SplitIsHeader(line, a, b, c, e);
    }
  }

  /** What the mark test accepts splits as whitespace and the mark. */
  lemma MarkSplits(x: string)
    requires HeaderMark(TrimLeft(x))
    ensures MarkAt(x, 0, |x| - |TrimLeft(x)|)
  {
    TrimLeftSplit(x);
    var m := |x| - |TrimLeft(x)|;
    assert x[0..m] == x[..m];
    assert x[m] == TrimLeft(x)[0];
  }

  /** A mark split found in the rest of the line from `c` is a mark split of the line. */
  lemma MarkShift(line: string, c: int, c0: int, e0: int)
    requires 0 <= c <= |line| && MarkAt(line[c..], c0, e0)
    ensures MarkAt(line, c + c0, c + e0)
  {
    assert line[c..][c0..e0] == line[c + c0..c + e0];
    assert line[c..][e0] == line[c + e0];
  }

  /** What the number test accepts splits as digits, whitespace and the mark. */
  lemma NumberSplits(t: string)
    requires HeaderNumber(t)
    ensures exists e :: NumberAt(t, 0, DigitRun(t), e)
  {
    var d := DigitRun(t);
    DigitRunSplit(t);
    assert t[0..d] == t[..d];
    MarkSplits(t[d..]);
    var m := |t[d..]| - |TrimLeft(t[d..])|;
    MarkShift(t, d, 0, m);
    assert NumberAt(t, 0, d, d + m);
  }

  /** A number split found in the rest of the line from `x` is a number split of the line. */
  lemma NumberShift(line: string, x: int, b0: int, c0: int, e0: int)
    requires 0 <= x <= |line| && NumberAt(line[x..], b0, c0, e0)
    ensures NumberAt(line, x + b0, x + c0, x + e0)
  {
    assert line[x..][b0..c0] == line[x + b0..x + c0];
    MarkShift(line, x, c0, e0);
  }

  /** What the number test accepts from `b` on splits as digits, whitespace and the mark. */
  lemma NumberSplitsAt(s: string, b: int)
    requires 0 <= b <= |s| && HeaderNumber(s[b..])
    ensures exists c, e :: NumberAt(s, b, c, e)
  {
    NumberSplits(s[b..]);
    var e0 :| NumberAt(s[b..], 0, DigitRun(s[b..]), e0);
    NumberShift(s, b, 0, DigitRun(s[b..]), e0);
  }

  /** What the word test accepts splits as "question", whitespace, the number and the mark. */
  lemma WordSplits(s: string)
    requires HeaderWord(s)
    ensures exists b, c, e :: WordAt(s, 0, b, c, e)
  {
    TrimLeftShift(s, 8);
    var b := 8 + (|s[8..]| - |TrimLeft(s[8..])|);
    assert s[0..8] == s[..8];
    NumberSplitsAt(s, b);
    var c, e :| NumberAt(s, b, c, e);
    assert WordAt(s, 0, b, c, e);
  }

  /** A word split found in the rest of the line from `a` is a word split of the line. */
  lemma WordShift(line: string, a: int, b0: int, c0: int, e0: int)
    requires 0 <= a <= |line| && WordAt(line[a..], 0, b0, c0, e0)
    ensures WordAt(line, a, a + b0, a + c0, a + e0)
  {
    assert line[a..][0..8] == line[a..a + 8];
    assert line[a..][8..b0] == line[a + 8..a + b0];
    NumberShift(line, a, b0, c0, e0);
  }

  /** A header line splits as the pattern says. */
  lemma HeaderSplits(line: string)
    requires IsHeader(line)
    ensures exists a, b, c, e :: HeaderAt(line, a, b, c, e)
  {
    var s := TrimLeft(line);
    TrimLeftSplit(line);
    var a := |line| - |s|;
    assert line[a..] == s;
    WordSplits(s);
    var b0, c0, e0 :| WordAt(s, 0, b0, c0, e0);
    WordShift(line, a, b0, c0, e0);
    assert HeaderAt(line, a, a + b0, a + c0, a + e0);
  }

  /** Whitespace and the mark from `c` on pass the mark test. */
  lemma MarkStep(line: string, c: int, e: int)
    requires MarkAt(line, c, e)
    ensures HeaderMark(TrimLeft(line[c..]))
  {
    assert line[c..] == line[c..e] + line[e..];
    TrimLeftPast(line[c..e], line[e..]);
  }

  /** Digits, whitespace and the mark from `b` on pass the number test. */
  lemma NumberStep(line: string, b: int, c: int, e: int)
    requires NumberAt(line, b, c, e)
    ensures HeaderNumber(line[b..])
  {
    if c < e {
      assert line[c] == line[c..e][0];
    }
    assert line[b..] == line[b..c] + line[c..];
    DigitRunPast(line[b..c], line[c..]);
    assert line[b..][c - b..] == line[c..];
    MarkStep(line, c, e);
  }

  /** "question", whitespace, the number and the mark from `a` on pass the word test. */
  lemma WordStep(line: string, a: int, b: int, c: int, e: int)
    requires WordAt(line, a, b, c, e)
    ensures HeaderWord(line[a..])
  {
    assert line[a..][..8] == line[a..a + 8];
    assert line[b] == line[b..c][0];
    DigitNotSpace(line[b]);
    assert line[a..][8..] == line[a + 8..b] + line[b..];
    TrimLeftPast(line[a + 8..b], line[b..]);
    NumberStep(line, b, c, e);
  }

  /** `lstrip()` of whitespace up to `a` followed by a non-whitespace character starts at `a`. */
  lemma TrimLeftTo(line: string, a: int)
    requires 0 <= a < |line| && AllSpace(line[..a]) && !IsSpace(line[a])
    ensures TrimLeft(line) == line[a..]
  {
    assert line == line[..a] + line[a..];
    TrimLeftPast(line[..a], line[a..]);
  }

  /** A line that splits as the pattern says is a header line. */
  lemma SplitIsHeader(line: string, a: int, b: int, c: int, e: int)
    requires HeaderAt(line, a, b, c, e)
    ensures IsHeader(line)
  {
    LowerWordStart(line[a..a + 8], "question");
    TrimLeftTo(line, a);
    WordStep(line, a, b, c, e);
  }

  /**
   * The answer pattern tried at position `p` only: "answer", whitespace, a colon and at
   * least one more character. Gives the remainder after the colon, stripped.
   */
  function AnswerAt(line: string, p: nat): Option<string>
    requires p + 6 <= |line|
  {
    if LowerStr(line[p..p + 6]) == "answer" then AnswerAfter(TrimLeft(line[p + 6..])) else None
  }

  /** After "answer" and whitespace: a colon and at least one more character, the rest stripped. */
  function AnswerAfter(t: string): Option<string> {
    if |t| >= 2 && t[0] == ':' then Some(Strip(t[1..])) else None
  }

  /**
   * The answer pattern at `p` as a split: "answer" in any case, whitespace up to the
   * colon at `c`, then at least one more character.
   */
  predicate AnswerColonAt(line: string, p: int, c: int) {
    && 0 <= p && p + 6 <= c < |line| - 1
    && LowerStr(line[p..p + 6]) == "answer"
    && AllSpace(line[p + 6..c])
    && line[c] == ':'
  }

  /**
   * The answer pattern matches at `p` exactly when the line splits as the pattern says
   * there, and then the answer is everything after the colon, stripped.
   */
  lemma AnswerAtSpec(line: string, p: nat)
    requires p + 6 <= |line|
    ensures AnswerAt(line, p).Some? <==> exists c :: AnswerColonAt(line, p, c)
    ensures forall c :: AnswerColonAt(line, p, c) ==> AnswerAt(line, p) == Some(Strip(line[c + 1..]))
  {
    if AnswerAt(line, p).Some? {
      AnswerAtColon(line, p);
    }
    forall c | AnswerColonAt(line, p, c)
      ensures AnswerAt(line, p) == Some(Strip(line[c + 1..]))
    {
      ColonAnswerAt(line, p, c);
    }
  }

  lemma AnswerAtColon(line: string, p: nat)
    requires p + 6 <= |line| && AnswerAt(line, p).Some?
    ensures exists c :: AnswerColonAt(line, p, c)
  {
    AnswerAtParts(line, p);
    var c := p + 6 + (|line[p + 6..]| - |TrimLeft(line[p + 6..])|);
    ColonAt(line, p + 6, c);
    assert AnswerColonAt(line, p, c);
  }

  /** What a match at `p` says: "answer", then past the whitespace a colon and one more character. */
  lemma AnswerAtParts(line: string, p: nat)
    requires p + 6 <= |line| && AnswerAt(line, p).Some?
    ensures LowerStr(line[p..p + 6]) == "answer"
    ensures |TrimLeft(line[p + 6..])| >= 2 && TrimLeft(line[p + 6..])[0] == ':'
  {
    AnswerAfterSome(TrimLeft(line[p + 6..]));
  }

  /** The colon past the whitespace at `q`, in `line`'s own positions. */
  lemma ColonAt(line: string, q: nat, c: int)
    requires q <= |line| && |TrimLeft(line[q..])| >= 2 && TrimLeft(line[q..])[0] == ':'
    requires c == q + (|line[q..]| - |TrimLeft(line[q..])|)
    ensures c < |line| - 1 && AllSpace(line[q..c]) && line[c] == ':'
  {
    var x := line[q..];
    ColonIn(x);
    AfterColon(line, q, x, c - q);
  }

  /** The colon `m` characters into the rest of `line` from `q`, in `line`'s own positions. */
  lemma AfterColon(line: string, q: nat, x: string, m: nat)
    requires q <= |line| && x == line[q..]
    requires m < |x| - 1 && AllSpace(x[..m]) && x[m] == ':'
    ensures q + m < |line| - 1 && AllSpace(line[q..q + m]) && line[q + m] == ':'
  {
    SpaceShift(line, q, m);
  }

  /** Where the answer's colon is, after the whitespace the left trim drops. */
  lemma ColonIn(x: string)
    requires |TrimLeft(x)| >= 2 && TrimLeft(x)[0] == ':'
    ensures var m := |x| - |TrimLeft(x)|;
            m < |x| - 1 && AllSpace(x[..m]) && x[m] == ':'
  {
    TrimLeftSplit(x);
    assert x[|x| - |TrimLeft(x)|] == TrimLeft(x)[0];
  }

  lemma AnswerAfterSome(t: string)
    requires AnswerAfter(t).Some?
    ensures |t| >= 2 && t[0] == ':'
  {
  }

  lemma ColonAnswerAt(line: string, p: nat, c: int)
    requires AnswerColonAt(line, p, c)
    ensures AnswerAt(line, p) == Some(Strip(line[c + 1..]))
  {
    assert line[p + 6..] == line[p + 6..c] + line[c..];
    TrimLeftPast(line[p + 6..c], line[c..]);
    assert line[c..][1..] == line[c + 1..];
    assert AnswerAfter(line[c..]) == Some(Strip(line[c + 1..]));
  }

  /** The answer pattern at every position, failing where "answer" no longer fits. */
  function AnswerAtEach(line: string): nat -> Option<string>
  {
    (p: nat) => if p + 6 <= |line| then AnswerAt(line, p) else None
  }

  /** `ANSWER_PATTERN.search(line)`: the stripped remainder of the leftmost match, if any. */
  function AnswerRest(line: string): Option<string>
  {
    First(0, |line|, AnswerAtEach(line))
  }

  /** The first success of `f` among the positions `p, p + 1, ..., n - 1`. */
  function First<T>(p: nat, n: nat, f: nat -> Option<T>): Option<T>
    decreases n - p
  {
    if p >= n then None
    else if f(p).Some? then f(p)
    else First(p + 1, n, f)
  }

  /** `First` finds the leftmost success, and fails only when every position fails. */
  lemma {:induction false} FirstIsLeftmost<T>(p: nat, n: nat, f: nat -> Option<T>)
    ensures First(p, n, f).None? <==> forall q :: p <= q < n ==> f(q).None?
    ensures First(p, n, f).Some? ==>
              exists q :: p <= q < n && f(q) == First(p, n, f) && forall q' :: p <= q' < q ==> f(q').None?
    decreases n - p
  {
    if p < n && f(p).None? {
      FirstIsLeftmost(p + 1, n, f);
      if First(p, n, f).Some? {
        var q :| p + 1 <= q < n && f(q) == First(p, n, f) && forall q' :: p + 1 <= q' < q ==> f(q').None?;
        assert forall q' :: p <= q' < q ==> f(q').None?;
      }
    }
  }

  /** The answer search fails only when the pattern matches at no position, and otherwise reports the leftmost match. */
  lemma AnswerRestLeftmost(line: string)
    ensures AnswerRest(line).None? <==> forall q :: 0 <= q && q + 6 <= |line| ==> AnswerAt(line, q).None?
    ensures AnswerRest(line).Some? ==>
              exists q :: 0 <= q && q + 6 <= |line| && AnswerAt(line, q) == AnswerRest(line) &&
                          forall q' :: 0 <= q' < q ==> AnswerAt(line, q').None?
  {
    var f := AnswerAtEach(line);
    FirstIsLeftmost(0, |line|, f);
    forall q | 0 <= q && q + 6 <= |line| ensures f(q) == AnswerAt(line, q) {
    }
    forall q | 0 <= q && |line| < q + 6 ensures f(q).None? {
    }
  }

  predicate IsOptionLabel(c: char) {
    'A' <= c <= 'D' || 'a' <= c <= 'd'
  }

  /** The label an option line names, upper-cased: a capital stays, a small letter becomes its capital. */
  function OptionLabel(c: char): (r: char)
    requires IsOptionLabel(c)
    ensures 'A' <= r <= 'D'
    ensures 'A' <= c <= 'D' ==> r == c
    ensures 'a' <= c <= 'd' ==> Lower(r) == c
  {
    Upper(c)
  }

  /** `OPTION_PATTERN.match(line)`: the upper-cased label and the stripped option text. */
  function OptionMatch(line: string): (r: Option<(char, string)>)
    ensures r.Some? ==> 'A' <= r.value.0 <= 'D'
  {
    OptionFrom(TrimLeft(line))
  }

  /** The option pattern after the leading whitespace: a label, then the rest. */
  function OptionFrom(s: string): Option<(char, string)> {
    if |s| >= 1 && IsOptionLabel(s[0]) then OptionMark(s[0], TrimLeft(s[1..])) else None
  }

  /** After the label and whitespace: '.' or ')' and at least one more character, the rest stripped. */
  function OptionMark(c: char, t: string): Option<(char, string)>
    requires IsOptionLabel(c)
  {
    if |t| >= 2 && (t[0] == '.' || t[0] == ')') then Some((OptionLabel(c), Strip(t[1..]))) else None
  }

  /**
   * The option pattern as a split of the line: whitespace before the label at `a`,
   * whitespace between it and the mark at `m`, and at least one character after the mark.
   */
  predicate OptionAt(line: string, a: int, m: int) {
    && 0 <= a < m < |line| - 1
    && AllSpace(line[..a])
    && IsOptionLabel(line[a])
    && AllSpace(line[a + 1..m])
    && (line[m] == '.' || line[m] == ')')
  }

  /**
   * The option pattern matches exactly when the line splits as the pattern says, and then
   * the label is the matched letter upper-cased and the text is everything after the mark,
   * stripped.
   */
  lemma OptionMatchSpec(line: string)
    ensures OptionMatch(line).Some? <==> exists a, m :: OptionAt(line, a, m)
    ensures forall a, m :: OptionAt(line, a, m) ==> OptionMatch(line) == Some((Upper(line[a]), Strip(line[m + 1..])))
  {
    if OptionMatch(line).Some? {
      var a, m := OptionMatchSplits(line);
    }
    forall a, m | OptionAt(line, a, m)
      ensures OptionMatch(line) == Some((Upper(line[a]), Strip(line[m + 1..])))
    {
      SplitIsOption(line, a, m);
    }
  }

  /** A match of the option pattern gives the split it matched. */
  lemma OptionMatchSplits(line: string) returns (a: int, m: int)
    requires OptionMatch(line).Some?
    ensures OptionAt(line, a, m)
  {
    OptionParts(TrimLeft(line));
    a, m := OptionSplits(line);
  }

  /** What a match says of the line after its leading whitespace. */
  lemma OptionParts(s: string)
    requires OptionFrom(s).Some?
    ensures |s| >= 1 && IsOptionLabel(s[0])
    ensures |TrimLeft(s[1..])| >= 2 && (TrimLeft(s[1..])[0] == '.' || TrimLeft(s[1..])[0] == ')')
  {
  }

  /** The label and the mark, found by the two left trims, as positions of `line`. */
  lemma OptionSplits(line: string) returns (a: int, m: int)
    requires |TrimLeft(line)| >= 1 && IsOptionLabel(TrimLeft(line)[0])
    requires var t := TrimLeft(TrimLeft(line)[1..]); |t| >= 2 && (t[0] == '.' || t[0] == ')')
    ensures OptionAt(line, a, m)
  {
    var s := TrimLeft(line);
    TrimLeftSplit(line);
    var w := line[..|line| - |s|];
    var y := s[1..];
    TrimLeftSplit(y);
    var v, r := y[..|y| - |TrimLeft(y)|], TrimLeft(y);
    Regroup(line, w, s, v, r);
    OptionAtJoin(w, s[0], v, r);
    a, m := |w|, |w| + 1 + |v|;
  }

  /** Whitespace, a label, whitespace, then a mark and more text: the option pattern's split. */
  lemma OptionAtJoin(w: string, c: char, v: string, r: string)
    requires AllSpace(w) && IsOptionLabel(c) && AllSpace(v) && |r| >= 2 && (r[0] == '.' || r[0] == ')')
    ensures OptionAt(w + [c] + v + r, |w|, |w| + 1 + |v|)
  {
    var line := w + [c] + v + r;
    assert line[..|w|] == w;
    assert line[|w| + 1..|w| + 1 + |v|] == v;
  }

  /** A line that splits as the option pattern says matches it, with that label and text. */
  lemma SplitIsOption(line: string, a: int, m: int)
    requires OptionAt(line, a, m)
    ensures OptionMatch(line) == Some((Upper(line[a]), Strip(line[m + 1..])))
  {
    var w, c, v, r := line[..a], line[a], line[a + 1..m], line[m..];
    assert line == w + [c] + v + r;
    assert r[1..] == line[m + 1..];
    OptionMatchJoin(w, c, v, r);
  }

  /** The option pattern on whitespace, a label, whitespace, a mark and more text. */
  lemma OptionMatchJoin(w: string, c: char, v: string, r: string)
    requires AllSpace(w) && IsOptionLabel(c) && AllSpace(v) && |r| >= 2 && (r[0] == '.' || r[0] == ')')
    ensures OptionMatch(w + [c] + v + r) == Some((Upper(c), Strip(r[1..])))
  {
    var s := [c] + v + r;
    Regroup(w + [c] + v + r, w, s, v, r);
    TrimLeftPast(w, s);
    TrimLeftPast(v, r);
    OptionFromAt(s, r);
  }

  /** A string cut after its leading part `w` and again after its first character. */
  lemma Regroup(x: string, w: string, s: string, v: string, r: string)
    requires |s| >= 1
    requires (x == w + s && s[1..] == v + r) || (x == w + [s[0]] + v + r && s == [s[0]] + v + r)
    ensures x == w + [s[0]] + v + r && x == w + s && |s| >= 1 && s[1..] == v + r && s == [s[0]] + s[1..]
  {
  }

  /** A label followed, past the whitespace, by a mark and more text. */
  lemma OptionFromAt(s: string, t: string)
    requires |s| >= 1 && IsOptionLabel(s[0]) && TrimLeft(s[1..]) == t
    requires |t| >= 2 && (t[0] == '.' || t[0] == ')')
    ensures OptionFrom(s) == Some((Upper(s[0]), Strip(t[1..])))
  {
  }

  /** The speaker keyword a suffix names, lower-cased, when the suffix is only that keyword and whitespace. */
  function SpeakerOf(s: string): (r: Option<string>)
    ensures r.Some? ==> r.value == "woman" || r.value == "man" || r.value == "both"
  {
    var w := LowerStr(Strip(s));
    if w == "woman" || w == "man" || w == "both" then Some(w) else None
  }

  /** A hyphen at `j`, after at least one character, followed only by a speaker keyword and whitespace. */
  predicate SpeakerHyphen(line: string, j: int) {
    1 <= j < |line| && line[j] == '-' && SpeakerOf(line[j + 1..]).Some?
  }

  /** The speaker pattern with its hyphen at `j`: the stripped stem before it and the speaker after it. */
  function SpeakerAt(line: string): int -> Option<(string, string)> {
    (j: int) =>
      if 1 <= j < |line| && line[j] == '-' && SpeakerOf(line[j + 1..]).Some? then
        Some((Strip(line[..j]), SpeakerOf(line[j + 1..]).value))
      else None
  }

  /** The last success of `f` among the positions `k, k - 1, ..., 0`. */
  function Last<T>(k: int, f: int -> Option<T>): Option<T>
    decreases k + 1
  {
    if k < 0 then None
    else if f(k).Some? then f(k)
    else Last(k - 1, f)
  }

  /** `Last` finds the rightmost success, and fails only when every position fails. */
  lemma {:induction false} LastIsRightmost<T>(k: int, f: int -> Option<T>)
    ensures Last(k, f).None? <==> forall j :: 0 <= j <= k ==> f(j).None?
    ensures Last(k, f).Some? ==>
              exists j :: 0 <= j <= k && f(j) == Last(k, f) && forall j' :: j < j' <= k ==> f(j').None?
    decreases k + 1
  {
    if k >= 0 && f(k).None? {
      LastIsRightmost(k - 1, f);
      if Last(k, f).Some? {
        var j :| 0 <= j <= k - 1 && f(j) == Last(k, f) && forall j' :: j < j' <= k - 1 ==> f(j').None?;
        assert forall j' :: j < j' <= k ==> f(j').None?;
      }
    }
  }

  /**
   * `re.match(r"(.+)-\s*(woman|man|both)\s*$", line, re.IGNORECASE)`: the greedy `(.+)`
   * backtracks from the right, so the last speaker hyphen gives the stem and the speaker.
   */
  function GenderMatch(line: string): (r: Option<(string, string)>)
    ensures r.Some? ==> r.value.1 == "woman" || r.value.1 == "man" || r.value.1 == "both"
  {
    var f := SpeakerAt(line);
    LastIsRightmost(|line| - 1, f);
    Last(|line| - 1, f)
  }

  /**
   * The speaker pattern: a line matches exactly when it has a speaker hyphen, and then the
   * stem is everything before the last speaker hyphen, stripped, and the speaker is the
   * keyword after it.
   */
  lemma GenderMatchSpec(line: string)
    ensures GenderMatch(line).None? <==> forall j :: 0 <= j < |line| ==> !SpeakerHyphen(line, j)
    ensures GenderMatch(line).Some? ==>
              exists j :: && SpeakerHyphen(line, j)
                          && GenderMatch(line).value == (Strip(line[..j]), SpeakerOf(line[j + 1..]).value)
                          && forall j' :: j < j' < |line| ==> !SpeakerHyphen(line, j')
  {
    var f := SpeakerAt(line);
    LastIsRightmost(|line| - 1, f);
    forall j
      ensures f(j).Some? <==> SpeakerHyphen(line, j)
      ensures f(j).Some? ==> f(j).value == (Strip(line[..j]), SpeakerOf(line[j + 1..]).value)
    {
      SpeakerAtHyphen(line, j);
    }
    if GenderMatch(line).Some? {
      var j :| 0 <= j <= |line| - 1 && f(j) == Last(|line| - 1, f) && forall j' :: j < j' <= |line| - 1 ==> f(j').None?;
      assert SpeakerHyphen(line, j);
    }
  }

  /** The speaker pattern with its hyphen at `j` matches exactly at a speaker hyphen. */
  lemma SpeakerAtHyphen(line: string, j: int)
    ensures SpeakerAt(line)(j).Some? <==> SpeakerHyphen(line, j)
    ensures SpeakerAt(line)(j).Some? ==> SpeakerAt(line)(j).value == (Strip(line[..j]), SpeakerOf(line[j + 1..]).value)
  {
  }

  /** `line.lstrip().lower().startswith("câu ")`: the line opens a sub-question. */
  predicate IsMarker(line: string) {
    var t := TrimLeft(line);
    |t| >= 4 && LowerStr(t[..4]) == "câu "
  }

  /** The marker as a split of the line: whitespace before `a`, then "câu " in any case. */
  predicate MarkerAt(line: string, a: int) {
    && 0 <= a && a + 4 <= |line|
    && AllSpace(line[..a])
    && LowerStr(line[a..a + 4]) == "câu "
  }

  /** A line opens a sub-question exactly when it is whitespace, then "câu " in any case, then anything. */
  lemma MarkerSpec(line: string)
    ensures IsMarker(line) <==> exists a :: MarkerAt(line, a)
  {
    if IsMarker(line) {
      var t := TrimLeft(line);
      TrimLeftSplit(line);
      var a := |line| - |t|;
      assert line[a..] == t && line[a..a + 4] == t[..4];
      assert MarkerAt(line, a);
    }
    if exists a :: MarkerAt(line, a) {
      var a :| MarkerAt(line, a);
      LowerWordStart(line[a..a + 4], "câu ");
      TrimLeftTo(line, a);
      assert line[a..][..4] == line[a..a + 4];
    }
  }
}
