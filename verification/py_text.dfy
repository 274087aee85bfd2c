/**
 * The few Python `str` operations the installer patcher relies on:
 * `s.find(pat)`, `pat in s`, `s.split(sep)`, `sep.join(pieces)` and
 * `s.replace(old, new)`, on strings modelled as `seq<char>`.
 */
module PyText {
  import opened Options

  /** `pat` occurs in `s` starting at index `j`. */
  predicate OccursAt(s: string, pat: string, j: nat)
  {
    j + |pat| <= |s| && s[j..j + |pat|] == pat
  }

  /** Occurrences in `s[1..]` are the occurrences in `s` shifted left by one. */
  lemma OccursShift(s: string, pat: string)
    requires |s| > 0
    ensures forall j: nat :: 0 < j ==> (OccursAt(s, pat, j) <==> OccursAt(s[1..], pat, j - 1))
  {
    forall j: nat | 0 < j
      ensures OccursAt(s, pat, j) <==> OccursAt(s[1..], pat, j - 1)
    {
      if j + |pat| <= |s| {
        assert s[1..][j - 1..j - 1 + |pat|] == s[j..j + |pat|];
      }
    }
  }

  /**
   * `s.find(pat)`: the index of the first occurrence of `pat` in `s`,
   * `None` standing for Python's -1.
   */
  function Find(s: string, pat: string): (r: Option<nat>)
    ensures r.Some? ==> OccursAt(s, pat, r.value)
    ensures r.Some? ==> forall j: nat :: j < r.value ==> !OccursAt(s, pat, j)
    ensures r.None? ==> forall j: nat :: !OccursAt(s, pat, j)
    decreases |s|
  {
    if |s| < |pat| then None
    else if s[..|pat|] == pat then Some(0)
    else
      OccursShift(s, pat);
      match Find(s[1..], pat)
      case None => None
      case Some(k) => Some(k + 1)
  }

  /** `pat in s`. */
  predicate Contains(s: string, pat: string)
  {
    Find(s, pat).Some?
  }

  /** A prefix of `s` that ends before the first occurrence of `pat` does not contain `pat`. */
  lemma NoOccurrenceInPrefix(s: string, pat: string, i: nat)
    requires pat != "" && i <= |s|
    requires forall j: nat :: j < i ==> !OccursAt(s, pat, j)
    ensures !Contains(s[..i], pat)
  {
    var f := Find(s[..i], pat);
    if f.Some? {
      var k := f.value;
      assert s[..i][k..k + |pat|] == s[k..k + |pat|];
      assert OccursAt(s, pat, k);
      assert false;
    }
  }

  /** An occurrence with none before it is the one `find` reports. */
  lemma FindIsFirstOccurrence(s: string, pat: string, i: nat)
    requires OccursAt(s, pat, i)
    requires forall j: nat :: j < i ==> !OccursAt(s, pat, j)
    ensures Find(s, pat) == Some(i)
  {
  }

  /**
   * The text before the first occurrence of `sep`, followed by `sep`, has its
   * first occurrence right after that text: the cut is at the leftmost
   * occurrence.
   */
  lemma CutAtFirstOccurrence(s: string, sep: string, i: nat)
    requires Find(s, sep) == Some(i)
    ensures Find(s[..i] + sep, sep) == Some(i)
  {
    assert OccursAt(s, sep, i);
    var t := s[..i] + sep;
    assert t == s[..i + |sep|];
    forall j: nat | j < i
      ensures !OccursAt(t, sep, j)
    {
      assert !OccursAt(s, sep, j);
      assert t[j..j + |sep|] == s[j..j + |sep|];
    }
    assert t[i..i + |sep|] == s[i..i + |sep|];
    FindIsFirstOccurrence(t, sep, i);
  }

  /**
   * `s.split(sep)` for a non-empty separator: the pieces between the
   * leftmost non-overlapping occurrences of `sep`. No piece contains `sep`,
   * and every piece but the last ends where `find` sees the next `sep`.
   */
  function Split(s: string, sep: string): (pieces: seq<string>)
    requires sep != ""
    ensures |pieces| >= 1
    ensures |pieces| == 1 <==> !Contains(s, sep)
    ensures forall i :: 0 <= i < |pieces| ==> !Contains(pieces[i], sep)
    ensures forall i :: 0 <= i < |pieces| - 1 ==> Find(pieces[i] + sep, sep) == Some(|pieces[i]|)
    decreases |s|
  {
    match Find(s, sep)
    case None => [s]
    case Some(i) =>
      NoOccurrenceInPrefix(s, sep, i);
      CutAtFirstOccurrence(s, sep, i);
      [s[..i]] + Split(s[i + |sep|..], sep)
  }

  /** Overlapping candidates: the cut is taken at the leftmost one, as `"aaa".split("aa")` does. */
  lemma SplitLeftmostExample()
    ensures Split("aaa", "aa") == ["", "a"]
  {
  }

  /** `sep.join(pieces)`. */
  function Join(pieces: seq<string>, sep: string): string
  {
    if |pieces| == 0 then ""
    else if |pieces| == 1 then pieces[0]
    else pieces[0] + sep + Join(pieces[1..], sep)
  }

  /** Cutting a text in three and gluing the parts back gives the text. */
  lemma Reassemble(s: string, i: nat, j: nat)
    requires i <= j <= |s|
    ensures s[..i] + s[i..j] + s[j..] == s
  {
  }

  /** Joining the pieces of a split with the same separator gives the text back. */
  lemma {:induction false} SplitJoinRoundTrip(s: string, sep: string)
    requires sep != ""
    ensures Join(Split(s, sep), sep) == s
    decreases |s|
  {
    match Find(s, sep)
    case None =>
    case Some(i) =>
      var rest := s[i + |sep|..];
      SplitJoinRoundTrip(rest, sep);
      JoinCons(s[..i], Split(rest, sep), sep);
      Reassemble(s, i, i + |sep|);
  }

  /** Joining a list with a first piece in front. */
  lemma JoinCons(first: string, tail: seq<string>, sep: string)
    requires |tail| >= 1
    ensures Join([first] + tail, sep) == first + sep + Join(tail, sep)
  {
    assert ([first] + tail)[1..] == tail;
  }

  /**
   * `s.replace(old, new)` for a non-empty `old` (here `target`): every
   * leftmost non-overlapping occurrence of `target` is replaced by
   * `replacement`, as Python's `new.join(s.split(old))` does. Text without
   * `target` comes back as it was.
   */
  function ReplaceAll(s: string, target: string, replacement: string): (r: string)
    requires target != ""
    ensures !Contains(s, target) ==> r == s
  {
    Join(Split(s, target), replacement)
  }

  /** The number of occurrences `ReplaceAll` replaces: Python's `s.count(old)`. */
  function Count(s: string, target: string): nat
    requires target != ""
  {
    |Split(s, target)| - 1
  }

  /** Total length of a list of pieces. */
  function TotalLength(pieces: seq<string>): nat
  {
    if |pieces| == 0 then 0 else |pieces[0]| + TotalLength(pieces[1..])
  }

  lemma {:induction false} JoinLength(pieces: seq<string>, sep: string)
    requires |pieces| >= 1
    ensures |Join(pieces, sep)| == TotalLength(pieces) + (|pieces| - 1) * |sep|
    decreases |pieces|
  {
    if |pieces| > 1 {
      JoinLength(pieces[1..], sep);
      assert (|pieces| - 1) * |sep| == (|pieces| - 2) * |sep| + |sep|;
    }
  }

  /**
   * Every replacement changes the length by `|replacement| - |target|`: the text is
   * the same pieces glued with `replacement` instead of `target`.
   */
  lemma ReplaceAllLength(s: string, target: string, replacement: string)
    requires target != ""
    ensures |ReplaceAll(s, target, replacement)| == |s| + Count(s, target) * (|replacement| - |target|)
    ensures Contains(s, target) ==> Count(s, target) >= 1
  {
    var pieces := Split(s, target);
    SplitJoinRoundTrip(s, target);
    JoinLength(pieces, target);
    JoinLength(pieces, replacement);
    Distribute(|pieces| - 1, |replacement|, |target|);
  }

  lemma Distribute(n: int, a: int, b: int)
    ensures n * a - n * b == n * (a - b)
  {
  }
}
