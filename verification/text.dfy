/** String operations the normaliser relies on: substring search, Python's
    `str.split(sep)`, `sep.join(parts)` and `str.strip()`. */
module Text {
  import opened Wrappers

  /** `pat` occurs in `s` starting at index `i`. */
  predicate OccursAt(s: string, pat: string, i: int) {
    0 <= i && i + |pat| <= |s| && s[i..i + |pat|] == pat
  }

  /** Python's `pat in s`. */
  predicate Contains(s: string, pat: string) {
    exists i | 0 <= i <= |s| :: OccursAt(s, pat, i)
  }

  /** The first occurrence of `pat` in `s` at or after `from`, as `str.find`
      scans; `FindFromMisses` states that nothing before it occurs. */
  function FindFrom(s: string, pat: string, from: nat): (r: Option<nat>)
    requires from <= |s|
    ensures r.Some? ==> from <= r.value && OccursAt(s, pat, r.value)
    decreases |s| - from
  {
    if from + |pat| > |s| then None
    else if s[from..from + |pat|] == pat then Some(from)
    else FindFrom(s, pat, from + 1)
  }

  /** The scan skips no occurrence: none lies before the one found, and none
      at all when nothing is found. */
  lemma {:induction false} FindFromMisses(s: string, pat: string, from: nat)
    requires from <= |s|
    ensures FindFrom(s, pat, from).Some? ==> forall j :: from <= j < FindFrom(s, pat, from).value ==> !OccursAt(s, pat, j)
    ensures FindFrom(s, pat, from).None? ==> forall j :: from <= j ==> !OccursAt(s, pat, j)
    decreases |s| - from
  {
    if from + |pat| <= |s| && s[from..from + |pat|] != pat {
      FindFromMisses(s, pat, from + 1);
    }
  }

  /** The scan finds the occurrence at `i` when no earlier one exists. */
  lemma FindFromFinds(s: string, pat: string, from: nat, i: nat)
    requires from <= i && from <= |s| && OccursAt(s, pat, i)
    requires forall j :: from <= j < i ==> !OccursAt(s, pat, j)
    ensures FindFrom(s, pat, from) == Some(i)
  {
    FindFromMisses(s, pat, from);
  }

  /** When `pat` occurs, the scan from the start finds an occurrence. */
  lemma ContainsFinds(s: string, pat: string)
    requires Contains(s, pat)
    ensures FindFrom(s, pat, 0).Some?
  {
    FindFromMisses(s, pat, 0);
  }

  /** Python's `s.split(sep)` for a non-empty separator: the pieces between
      successive non-overlapping occurrences, scanning left to right. */
  function Split(s: string, sep: string): (r: seq<string>)
    requires |sep| > 0
    ensures |r| >= 1
    decreases |s|
  {
    match FindFrom(s, sep, 0)
    case None => [s]
    case Some(i) => [s[..i]] + Split(s[i + |sep|..], sep)
  }

  /** Python's `sep.join(parts)`. */
  function Join(parts: seq<string>, sep: string): string {
    if |parts| == 0 then ""
    else if |parts| == 1 then parts[0]
    else parts[0] + sep + Join(parts[1..], sep)
  }

  lemma JoinCons(a: string, tail: seq<string>, sep: string)
    requires |tail| >= 1
    ensures Join([a] + tail, sep) == a + sep + Join(tail, sep)
  {
    assert ([a] + tail)[1..] == tail;
  }

  /** Joining the pieces of a split restores the original string. */
  lemma {:induction false} JoinSplit(s: string, sep: string)
    requires |sep| > 0
    ensures Join(Split(s, sep), sep) == s
    decreases |s|
  {
    match FindFrom(s, sep, 0)
    case None =>
    case Some(i) =>
      var rest := s[i + |sep|..];
      var pieces := Split(s, sep);
      SplitAt(s, sep, i);
      JoinSplit(rest, sep);
      assert pieces == [s[..i]] + pieces[1..];
      JoinCons(s[..i], pieces[1..], sep);
      assert s[i..i + |sep|] == sep;
      assert s == s[..i] + s[i..i + |sep|] + rest;
  }

  /** No character of `p` is `c`. */
  predicate Avoids(p: string, c: char) {
    forall k :: 0 <= k < |p| ==> p[k] != c
  }

  lemma NotContainsWhenAvoids(p: string, sep: string)
    requires |sep| > 0 && Avoids(p, sep[0])
    ensures FindFrom(p, sep, 0).None?
  {
  }

  lemma FirstOccurrenceAfterAvoidingPrefix(p: string, sep: string, rest: string)
    requires |sep| > 0 && Avoids(p, sep[0])
    ensures FindFrom(p + sep + rest, sep, 0) == Some(|p|)
  {
    var s := p + sep + rest;
    assert s[|p|..|p| + |sep|] == sep;
    forall j | 0 <= j < |p|
      ensures !OccursAt(s, sep, j)
    {
      if j + |sep| <= |s| {
        assert s[j..j + |sep|][0] == p[j];
      }
    }
    FindFromFinds(s, sep, 0, |p|);
  }

  /** Splitting a join gives the parts back, provided no part contains the
      separator's first character. */
  lemma {:induction false} SplitJoin(parts: seq<string>, sep: string)
    requires |sep| > 0 && |parts| > 0
    requires forall i :: 0 <= i < |parts| ==> Avoids(parts[i], sep[0])
    ensures Split(Join(parts, sep), sep) == parts
    decreases |parts|
  {
    if |parts| == 1 {
      NotContainsWhenAvoids(parts[0], sep);
    } else {
      var p := parts[0];
      var rest := Join(parts[1..], sep);
      var s := p + sep + rest;
      assert Join(parts, sep) == s;
      FirstOccurrenceAfterAvoidingPrefix(p, sep, rest);
      SplitAt(s, sep, |p|);
      assert s[..|p|] == p;
      assert s[|p| + |sep|..] == rest;
      SplitJoin(parts[1..], sep);
      var pieces := Split(s, sep);
      assert pieces == [pieces[0]] + pieces[1..];
      assert parts == [p] + parts[1..];
    }
  }

  /** Characters Python's `str.isspace` accepts (and `str.strip()` removes). */
  predicate IsSpace(c: char) {
    || c == ' '
    || ('\t' <= c <= '\r')
    || ('\U{1C}' <= c <= '\U{1F}')
    || c == '\U{85}' || c == '\U{A0}' || c == '\U{1680}'
    || ('\U{2000}' <= c <= '\U{200A}')
    || c == '\U{2028}' || c == '\U{2029}' || c == '\U{202F}' || c == '\U{205F}' || c == '\U{3000}'
  }

  function FirstNonSpace(s: string, from: nat): (i: nat)
    requires from <= |s|
    ensures from <= i <= |s|
    ensures forall k :: from <= k < i ==> IsSpace(s[k])
    ensures i == |s| || !IsSpace(s[i])
    decreases |s| - from
  {
    if from == |s| || !IsSpace(s[from]) then from else FirstNonSpace(s, from + 1)
  }

  function LastNonSpaceEnd(s: string, lo: nat, hi: nat): (j: nat)
    requires lo <= hi <= |s|
    ensures lo <= j <= hi
    ensures forall k :: j <= k < hi ==> IsSpace(s[k])
    ensures j == lo || !IsSpace(s[j - 1])
    decreases hi
  {
    if hi == lo || !IsSpace(s[hi - 1]) then hi else LastNonSpaceEnd(s, lo, hi - 1)
  }

  /** The slice `str.strip()` keeps: everything outside it is whitespace, and
      the slice neither starts nor ends with whitespace. */
  function StripBounds(s: string): (b: (nat, nat))
    ensures b.0 <= b.1 <= |s|
    ensures forall k :: 0 <= k < b.0 ==> IsSpace(s[k])
    ensures forall k :: b.1 <= k < |s| ==> IsSpace(s[k])
    ensures b.0 < b.1 ==> !IsSpace(s[b.0]) && !IsSpace(s[b.1 - 1])
  {
    var i := FirstNonSpace(s, 0);
    (i, LastNonSpaceEnd(s, i, |s|))
  }

  /** Python's `s.strip()` with no argument: the slice of `s` left after
      dropping whitespace on both sides, which neither starts nor ends with
      whitespace. */
  function Strip(s: string): (r: string)
    ensures |r| <= |s|
    ensures var a := FirstNonSpace(s, 0);
      && a + |r| <= |s| && r == s[a..a + |r|]
      && (forall k :: 0 <= k < a ==> IsSpace(s[k]))
      && (forall k :: a + |r| <= k < |s| ==> IsSpace(s[k]))
    ensures |r| > 0 ==> !IsSpace(r[0]) && !IsSpace(r[|r| - 1])
  {
    var b := StripBounds(s);
    var r := s[b.0..b.1];
    assert r == s[b.0..b.0 + |r|];
    r
  }

  /** Stripping twice is stripping once. */
  lemma StripIdempotent(s: string)
    ensures Strip(Strip(s)) == Strip(s)
  {
    var t := Strip(s);
    var b := StripBounds(t);
    if |t| > 0 {
      assert !IsSpace(t[0]) && !IsSpace(t[|t| - 1]);
      assert b.0 == 0;
      assert b.1 == |t|;
    }
  }

  /** Facts about the first piece of a split: it is a prefix free of the
      separator, followed either by the end of the string or by the separator. */
  lemma SplitHead(s: string, sep: string)
    requires |sep| > 0
    ensures var h := Split(s, sep)[0];
      && |h| <= |s| && s[..|h|] == h && !Contains(h, sep)
      && (|h| == |s| || OccursAt(s, sep, |h|))
      && (forall j :: 0 <= j < |h| ==> !OccursAt(s, sep, j))
  {
    var h := Split(s, sep)[0];
    FindFromMisses(s, sep, 0);
    match FindFrom(s, sep, 0)
    case None =>
    case Some(i) =>
      assert h == s[..i];
      forall k | 0 <= k && k + |sep| <= |h|
        ensures !OccursAt(h, sep, k)
      {
        assert !OccursAt(s, sep, k);
        assert h[k..k + |sep|] == s[k..k + |sep|];
      }
  }

  /** A split yields a single piece, the whole text, exactly when the
      separator does not occur. */
  lemma SplitSingle(s: string, sep: string)
    requires |sep| > 0
    ensures |Split(s, sep)| == 1 <==> !Contains(s, sep)
    ensures !Contains(s, sep) ==> Split(s, sep) == [s]
  {
    FindFromMisses(s, sep, 0);
  }

  /** Unfolding a split at a found separator: the first piece is the text
      before it, the remaining pieces are the split of the text after it. */
  lemma SplitAt(s: string, sep: string, i: nat)
    requires |sep| > 0 && FindFrom(s, sep, 0) == Some(i)
    ensures |Split(s, sep)| >= 2
    ensures Split(s, sep)[0] == s[..i]
    ensures Split(s, sep)[1..] == Split(s[i + |sep|..], sep)
  {
  }

  /** A piece that starts a suffix and ends at the end or at a separator
      does so in the whole string too. */
  lemma PieceInSuffix(text: string, start: nat, sep: string, r: string)
    requires start <= |text|
    requires |r| <= |text| - start && text[start..][..|r|] == r
    requires |r| == |text| - start || OccursAt(text[start..], sep, |r|)
    ensures start + |r| <= |text| && text[start..start + |r|] == r
    ensures start + |r| == |text| || OccursAt(text, sep, start + |r|)
  {
    assert text[start..][..|r|] == text[start..start + |r|];
    if |r| < |text| - start {
      assert text[start..][|r|..|r| + |sep|] == text[start + |r|..start + |r| + |sep|];
    }
  }

  /** No separator starts inside a piece of a suffix, so none starts inside
      the same piece of the whole string. */
  lemma NoOccurrenceInSuffix(text: string, start: nat, sep: string, n: nat)
    requires start + n <= |text|
    requires forall j :: 0 <= j < n ==> !OccursAt(text[start..], sep, j)
    ensures forall j :: start <= j < start + n ==> !OccursAt(text, sep, j)
  {
    forall j | start <= j < start + n ensures !OccursAt(text, sep, j) {
      assert !OccursAt(text[start..], sep, j - start);
      if j + |sep| <= |text| {
        assert text[start..][j - start..j - start + |sep|] == text[j..j + |sep|];
      }
    }
  }

  /** The second piece of a split, when the first separator is at `i`,
      seen from the text after that separator: it starts that text, ends at
      its end or at the next separator, and contains no separator. */
  lemma SecondPieceInRest(text: string, sep: string, i: nat)
    requires |sep| > 0 && FindFrom(text, sep, 0) == Some(i)
    ensures |Split(text, sep)| >= 2
    ensures var r := Split(text, sep)[1]; var rest := text[i + |sep|..];
      && |r| <= |rest| && rest[..|r|] == r
      && (|r| == |rest| || OccursAt(rest, sep, |r|))
      && (forall j :: 0 <= j < |r| ==> !OccursAt(rest, sep, j))
      && !Contains(r, sep)
  {
    SplitAt(text, sep, i);
    assert Split(text, sep)[1] == Split(text, sep)[1..][0];
    SplitHead(text[i + |sep|..], sep);
  }

  /** The second piece of a split, when the first separator is at `i`: it
      runs from just after that separator to the end or to the next
      separator, none starting inside it. */
  lemma SecondPieceFacts(text: string, sep: string, i: nat)
    requires |sep| > 0 && FindFrom(text, sep, 0) == Some(i)
    ensures |Split(text, sep)| >= 2
    ensures var r := Split(text, sep)[1]; var start := i + |sep|;
      && start + |r| <= |text| && text[start..start + |r|] == r
      && (start + |r| == |text| || OccursAt(text, sep, start + |r|))
      && (forall j :: start <= j < start + |r| ==> !OccursAt(text, sep, j))
      && !Contains(r, sep)
  {
    SecondPieceInRest(text, sep, i);
    var r, start := Split(text, sep)[1], i + |sep|;
    PieceInSuffix(text, start, sep, r);
    NoOccurrenceInSuffix(text, start, sep, |r|);
  }

  /** Python's `text.split(sep)[1]` when `sep` occurs in `text`: the piece
      between the first occurrence of `sep` (the one `FindFrom` reaches,
      see `FindFromMisses`) and the next one, or the end. */
  function SecondPiece(text: string, sep: string): (r: string)
    requires |sep| > 0 && Contains(text, sep)
    ensures FindFrom(text, sep, 0).Some?
    ensures var start := FindFrom(text, sep, 0).value + |sep|;
      && start + |r| <= |text| && text[start..start + |r|] == r
      && (start + |r| == |text| || OccursAt(text, sep, start + |r|))
      && (forall j :: start <= j < start + |r| ==> !OccursAt(text, sep, j))
    ensures !Contains(r, sep)
  {
    ContainsFinds(text, sep);
    SecondPieceFacts(text, sep, FindFrom(text, sep, 0).value);
    Split(text, sep)[1]
  }
}
