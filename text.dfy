/**
 * Character and string helpers standing in for Python's `str.isspace`,
 * `str.strip`, `str.lower`, `str.upper` and `"\n".join`.
 */
module Text {

  /** Exactly the characters for which Python's `str.isspace()` holds. */
  predicate IsSpace(c: char) {
    var n := c as int;
    (9 <= n <= 13) || (28 <= n <= 32) || n == 0x85 || n == 0xA0 || n == 0x1680
    || (0x2000 <= n <= 0x200A) || n == 0x2028 || n == 0x2029 || n == 0x202F
    || n == 0x205F || n == 0x3000
  }

  predicate IsDigit(c: char) {
    '0' <= c <= '9'
  }

  /** Lower-casing of ASCII and Latin-1 capitals; every other character is kept. */
  function Lower(c: char): char
  {
    if 'A' <= c <= 'Z' || ('À' <= c <= 'Þ' && c != '×') then (c as int + 32) as char else c
  }

  /**
   * Upper-casing of ASCII letters: a lower-case letter becomes the capital that
   * `Lower` takes back to it, and every other character is kept. No ASCII lower-case
   * letter is left.
   */
  function Upper(c: char): (r: char)
    ensures 'a' <= c <= 'z' ==> 'A' <= r <= 'Z' && Lower(r) == c
    ensures !('a' <= c <= 'z') ==> r == c
    ensures !('a' <= r <= 'z')
  {
    if 'a' <= c <= 'z' then (c as int - 32) as char else c
  }

  /**
   * `s.lower()`, character by character: every ASCII capital becomes its small letter,
   * no ASCII capital is left, and every other ASCII character is kept.
   */
  function LowerStr(s: string): (r: string)
    ensures |r| == |s|
    ensures forall i :: 0 <= i < |s| && 'A' <= s[i] <= 'Z' ==> r[i] as int == s[i] as int + 32
    ensures forall i :: 0 <= i < |s| && s[i] as int < 0x80 && !('A' <= s[i] <= 'Z') ==> r[i] == s[i]
    ensures forall i :: 0 <= i < |r| ==> !('A' <= r[i] <= 'Z')
  {
    seq(|s|, i requires 0 <= i < |s| => Lower(s[i]))
  }

  /** Lower-casing twice is lower-casing once. */
  lemma LowerStrIdempotent(s: string)
    ensures LowerStr(LowerStr(s)) == LowerStr(s)
  {
    var once := LowerStr(s);
    assert forall i :: 0 <= i < |s| ==> once[i] == Lower(s[i]) && Lower(Lower(s[i])) == Lower(s[i]);
  }

  /** `s.lstrip()`: the suffix of `s` left after dropping leading whitespace. */
  function TrimLeft(s: string): (r: string)
    ensures |r| <= |s| && r == s[|s| - |r|..]
    ensures r == [] || !IsSpace(r[0])
    ensures forall k :: 0 <= k < |s| - |r| ==> IsSpace(s[k])
  {
    if s != [] && IsSpace(s[0]) then TrimLeft(s[1..]) else s
  }

  /** Every character of `s` is whitespace. */
  predicate AllSpace(s: string) {
    forall k :: 0 <= k < |s| ==> IsSpace(s[k])
  }

  /** `lstrip()` of whitespace followed by a string that does not start with whitespace. */
  lemma {:induction false} TrimLeftPast(w: string, rest: string)
    requires AllSpace(w)
    requires rest == [] || !IsSpace(rest[0])
    ensures TrimLeft(w + rest) == rest
  {
    if w != [] {
      assert (w + rest)[1..] == w[1..] + rest;
      TrimLeftPast(w[1..], rest);
    }
  }

  /** `lstrip()` drops a prefix of whitespace. */
  lemma TrimLeftSplit(s: string)
    ensures AllSpace(s[..|s| - |TrimLeft(s)|])
    ensures s == s[..|s| - |TrimLeft(s)|] + TrimLeft(s)
  {
  }

  /** `lstrip()` of the rest of `s` from `i`: the whitespace it drops and where it starts, in `s`'s positions. */
  lemma TrimLeftShift(s: string, i: nat)
    requires i <= |s|
    ensures var m := |s[i..]| - |TrimLeft(s[i..])|;
            AllSpace(s[i..i + m]) && TrimLeft(s[i..]) == s[i + m..]
  {
    var x := s[i..];
    TrimLeftSplit(x);
    SpaceShift(s, i, |x| - |TrimLeft(x)|);
  }

  /** Whitespace at the front of the rest of `s` from `i` is whitespace of `s` itself. */
  lemma SpaceShift(s: string, i: nat, m: nat)
    requires i + m <= |s| && AllSpace(s[i..][..m])
    ensures AllSpace(s[i..i + m]) && s[i..][m..] == s[i + m..]
  {
    assert s[i..i + m] == s[i..][..m];
  }

  /** `s.rstrip()`: the prefix of `s` left after dropping trailing whitespace. */
  function TrimRight(s: string): (r: string)
    ensures |r| <= |s| && r == s[..|r|]
    ensures r == [] || !IsSpace(r[|r| - 1])
    ensures forall k :: |r| <= k < |s| ==> IsSpace(s[k])
  {
    if s != [] && IsSpace(s[|s| - 1]) then TrimRight(s[..|s| - 1]) else s
  }

  /**
   * `s.strip()`: the slice of `s` with only whitespace before and after it, and
   * neither starting nor ending with whitespace.
   */
  function Strip(s: string): (r: string)
    ensures |r| <= |s|
    ensures r == [] || (!IsSpace(r[0]) && !IsSpace(r[|r| - 1]))
    ensures r == [] <==> forall k :: 0 <= k < |s| ==> IsSpace(s[k])
    ensures exists i :: StripsTo(s, i, r)
  {
    StripSlice(s);
    TrimRight(TrimLeft(s))
  }

  /** Trimming both ends leaves the slice of `s` where the left trim stopped. */
  lemma StripSlice(s: string)
    ensures StripsTo(s, |s| - |TrimLeft(s)|, TrimRight(TrimLeft(s)))
  {
    TrimLeftSplit(s);
    TrimRightSplit(TrimLeft(s));
    StripsBetween(s, TrimLeft(s), TrimRight(TrimLeft(s)));
  }

  /** A prefix of whitespace, then `r`, then a suffix of whitespace. */
  lemma StripsBetween(s: string, t: string, r: string)
    requires |t| <= |s| && AllSpace(s[..|s| - |t|]) && s == s[..|s| - |t|] + t
    requires |r| <= |t| && AllSpace(t[|r|..]) && t == r + t[|r|..]
    ensures StripsTo(s, |s| - |t|, r)
  {
    var w, v := s[..|s| - |t|], t[|r|..];
    assert s == w + r + v;
    JoinStrips(w, r, v);
  }

  /** `rstrip()` drops a suffix of whitespace. */
  lemma TrimRightSplit(s: string)
    ensures AllSpace(s[|TrimRight(s)|..])
    ensures s == TrimRight(s) + s[|TrimRight(s)|..]
  {
  }

  /** A string between two runs of whitespace is the slice after the first run. */
  lemma JoinStrips(w: string, r: string, v: string)
    requires AllSpace(w) && AllSpace(v)
    ensures StripsTo(w + r + v, |w|, r)
  {
    var s := w + r + v;
    assert s[|w|..|w| + |r|] == r;
    assert forall k :: 0 <= k < |w| ==> s[k] == w[k];
    assert forall k :: |w| + |r| <= k < |s| ==> s[k] == v[k - |w| - |r|];
  }

  /** `r` is the slice of `s` at `i`, with only whitespace outside it. */
  predicate StripsTo(s: string, i: int, r: string) {
    && 0 <= i <= |s| - |r|
    && r == s[i..i + |r|]
    && (forall k :: 0 <= k < i ==> IsSpace(s[k]))
    && (forall k :: i + |r| <= k < |s| ==> IsSpace(s[k]))
  }

  /** A string that `strip()` leaves as it is. */
  predicate IsStripped(s: string) {
    s == [] || (!IsSpace(s[0]) && !IsSpace(s[|s| - 1]))
  }

  lemma StripOfStripped(s: string)
    requires IsStripped(s)
    ensures Strip(s) == s
  {
  }

  /** `"\n".join(lines)`. */
  function JoinLines(lines: seq<string>): string
  {
    if |lines| == 0 then ""
    else if |lines| == 1 then lines[0]
    else lines[0] + "\n" + JoinLines(lines[1..])
  }
}
