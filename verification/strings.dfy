/** The JavaScript string operations the application uses, on `string` (a
    sequence of characters): `indexOf`, `endsWith`, `replace` with a string
    pattern, `split`/`join` with a non-empty separator, `toUpperCase` on a
    single character, and `trim`. */
module Strings {
  import opened Common

  /** `pat` occurs in `s` starting at position `i`. */
  predicate OccursAt(s: string, pat: string, i: nat) {
    i + |pat| <= |s| && s[i..i + |pat|] == pat
  }

  predicate Contains(s: string, pat: string) {
    exists i: nat :: i <= |s| && OccursAt(s, pat, i)
  }

  /** `String.prototype.endsWith`. */
  predicate EndsWith(s: string, suffix: string) {
    |suffix| <= |s| && s[|s| - |suffix|..] == suffix
  }

  /** Past position 0, the occurrences in `s` are those in `s[1..]`, shifted by one. */
  lemma OccursAtTail(s: string, pat: string)
    requires |s| > 0
    ensures forall j: nat :: 1 <= j ==> (OccursAt(s, pat, j) <==> OccursAt(s[1..], pat, j - 1))
  {
    forall j: nat | 1 <= j
      ensures OccursAt(s, pat, j) <==> OccursAt(s[1..], pat, j - 1)
    {
      if j + |pat| <= |s| {
        assert s[1..][j - 1..j - 1 + |pat|] == s[j..j + |pat|];
      }
    }
  }

  /** An occurrence inside `t` is an occurrence inside `u + t`, shifted by `|u|`. */
  lemma OccursAfterPrefix(u: string, t: string, pat: string, k: nat)
    requires OccursAt(t, pat, k)
    ensures OccursAt(u + t, pat, |u| + k)
  {
    assert (u + t)[|u| + k..|u| + k + |pat|] == t[k..k + |pat|];
  }

  /** `String.prototype.indexOf`: the first position where `pat` occurs. */
  function IndexOf(s: string, pat: string): (r: Option<nat>)
    ensures r.Some? ==> r.value + |pat| <= |s|
    decreases |s|
  {
    if |s| < |pat| then None
    else if s[..|pat|] == pat then Some(0)
    else match IndexOf(s[1..], pat)
      case None => None
      case Some(i) => Some(i + 1)
  }

  /** `IndexOf` finds the first occurrence, and finds none exactly when there is none. */
  lemma {:induction false} IndexOfSpec(s: string, pat: string)
    ensures IndexOf(s, pat).None? <==> forall i: nat :: i <= |s| ==> !OccursAt(s, pat, i)
    ensures IndexOf(s, pat).Some? ==> OccursAt(s, pat, IndexOf(s, pat).value)
    ensures IndexOf(s, pat).Some? ==> forall j: nat :: j < IndexOf(s, pat).value ==> !OccursAt(s, pat, j)
    decreases |s|
  {
    if |s| < |pat| {
    } else if s[..|pat|] == pat {
      assert OccursAt(s, pat, 0);
    } else {
      assert !OccursAt(s, pat, 0);
      IndexOfSpec(s[1..], pat);
      OccursAtTail(s, pat);
      match IndexOf(s[1..], pat)
      case None =>
      case Some(i) =>
        assert OccursAt(s, pat, i + 1);
    }
  }

  /** The search answers `k` when `pat` occurs at `k` and nowhere before. */
  lemma IndexOfAt(s: string, pat: string, k: nat)
    requires OccursAt(s, pat, k)
    requires forall j: nat :: j < k ==> !OccursAt(s, pat, j)
    ensures IndexOf(s, pat) == Some(k)
  {
    IndexOfSpec(s, pat);
  }

  /** One step of the search: when `pat` is not at position 0, the answer is the tail's, shifted by one. */
  lemma IndexOfStep(s: string, pat: string)
    requires |pat| <= |s| && s[..|pat|] != pat
    ensures IndexOf(s[1..], pat).None? ==> IndexOf(s, pat).None?
    ensures IndexOf(s[1..], pat).Some? ==> IndexOf(s, pat) == Some(IndexOf(s[1..], pat).value + 1)
  {
  }

  /** `String.prototype.replace` with a string pattern: only the first occurrence is replaced. */
  function ReplaceFirst(s: string, pat: string, rep: string): (r: string)
    ensures (forall i: nat :: i <= |s| ==> !OccursAt(s, pat, i)) ==> r == s
    ensures IndexOf(s, pat).Some? ==>
      var i := IndexOf(s, pat).value;
      && OccursAt(s, pat, i)
      && (forall j: nat :: j < i ==> !OccursAt(s, pat, j))
      && r == s[..i] + rep + s[i + |pat|..]
  {
    IndexOfSpec(s, pat);
    match IndexOf(s, pat)
    case None => s
    case Some(i) => s[..i] + rep + s[i + |pat|..]
  }

  /** A prefix of `s` that ends before the first occurrence of `pat` holds no occurrence. */
  lemma NoneBefore(s: string, pat: string, i: nat)
    requires |pat| > 0 && i <= |s|
    requires forall j: nat :: j < i ==> !OccursAt(s, pat, j)
    ensures IndexOf(s[..i], pat).None?
  {
    IndexOfSpec(s[..i], pat);
    forall j: nat | j <= i
      ensures !OccursAt(s[..i], pat, j)
    {
      if j + |pat| <= i {
        assert s[..i][j..j + |pat|] == s[j..j + |pat|];
        assert OccursAt(s[..i], pat, j) ==> OccursAt(s, pat, j);
      }
    }
  }

  /** `String.prototype.split` with a non-empty separator: the pieces between
      successive non-overlapping occurrences, scanning from the left. */
  function Split(s: string, sep: string): (parts: seq<string>)
    requires |sep| > 0
    ensures |parts| >= 1
    ensures forall k :: 0 <= k < |parts| ==> IndexOf(parts[k], sep).None?
    decreases |s|
  {
    match IndexOf(s, sep)
    case None => [s]
    case Some(i) =>
      IndexOfSpec(s, sep);
      NoneBefore(s, sep, i);
      [s[..i]] + Split(s[i + |sep|..], sep)
  }

  lemma SplitStep(s: string, sep: string)
    requires |sep| > 0
    ensures IndexOf(s, sep).None? ==> Split(s, sep) == [s]
    ensures IndexOf(s, sep).Some? ==>
      var i := IndexOf(s, sep).value;
      Split(s, sep) == [s[..i]] + Split(s[i + |sep|..], sep)
  {
  }

  /** `Array.prototype.join`. */
  function Join(parts: seq<string>, sep: string): (r: string)
    ensures |parts| == 0 ==> r == ""
    ensures |parts| > 0 ==> |parts[0]| <= |r| && r[..|parts[0]|] == parts[0]
  {
    if |parts| == 0 then ""
    else if |parts| == 1 then parts[0]
    else parts[0] + sep + Join(parts[1..], sep)
  }

  /** Splitting and joining again with the same separator gives the original string back. */
  lemma {:induction false} JoinSplit(s: string, sep: string)
    requires |sep| > 0
    ensures Join(Split(s, sep), sep) == s
    decreases |s|
  {
    match IndexOf(s, sep)
    case None =>
    case Some(i) =>
      var rest := s[i + |sep|..];
      var tail := Split(rest, sep);
      IndexOfSpec(s, sep);
      JoinSplit(rest, sep);
      var parts := Split(s, sep);
      assert parts == [s[..i]] + tail;
      assert parts[1..] == tail;
      calc {
        Join(parts, sep);
        parts[0] + sep + Join(tail, sep);
        s[..i] + sep + rest;
        { assert s[i..i + |sep|] == sep; }
        s;
      }
  }

  /** `s` holds no occurrence of the character `c`. */
  predicate FreeOf(s: string, c: char) {
    forall k :: 0 <= k < |s| ==> s[k] != c
  }

  /** A string without the separator's first character holds no separator. */
  lemma FreeOfNoOccurrence(p: string, sep: string)
    requires |sep| > 0 && FreeOf(p, sep[0])
    ensures IndexOf(p, sep).None?
  {
    IndexOfSpec(p, sep);
    forall i: nat | i <= |p|
      ensures !OccursAt(p, sep, i)
    {
      if i + |sep| <= |p| {
        assert p[i..i + |sep|][0] == p[i];
      }
    }
  }

  /** After a part without the separator's first character, the separator
      is first found right where it was written. */
  lemma FreeOfFirstOccurrence(p: string, sep: string, t: string)
    requires |sep| > 0 && FreeOf(p, sep[0])
    ensures IndexOf(p + sep + t, sep) == Some(|p|)
  {
    var s := p + sep + t;
    assert s[|p|..|p| + |sep|] == sep;
    forall j: nat | j < |p|
      ensures !OccursAt(s, sep, j)
    {
      assert s[j..j + |sep|][0] == p[j];
    }
    IndexOfAt(s, sep, |p|);
  }

  /** Joining and splitting again gives the parts back, provided no part
      holds the separator's first character. (A weaker proviso, that no
      part holds the whole separator, is not enough: a part may end with a
      beginning of the separator and meet it across the boundary.) */
  lemma {:induction false} SplitJoin(parts: seq<string>, sep: string)
    requires |sep| > 0 && |parts| > 0
    requires forall i :: 0 <= i < |parts| ==> FreeOf(parts[i], sep[0])
    ensures Split(Join(parts, sep), sep) == parts
    decreases |parts|
  {
    var p := parts[0];
    SplitStep(Join(parts, sep), sep);
    if |parts| == 1 {
      FreeOfNoOccurrence(p, sep);
    } else {
      var rest := parts[1..];
      var s := Join(parts, sep);
      assert s == p + sep + Join(rest, sep);
      FreeOfFirstOccurrence(p, sep, Join(rest, sep));
      assert s[..|p|] == p;
      assert s[|p| + |sep|..] == Join(rest, sep);
      SplitJoin(rest, sep);
      assert parts == [p] + rest;
    }
  }

  /** Every joined part can be found in the joined string. */
  lemma {:induction false} JoinContains(parts: seq<string>, sep: string, i: nat)
    requires i < |parts|
    ensures Contains(Join(parts, sep), parts[i])
    decreases i
  {
    var joined := Join(parts, sep);
    if |parts| == 1 {
      assert OccursAt(joined, parts[0], 0);
    } else if i == 0 {
      assert joined[..|parts[0]|] == parts[0];
      assert OccursAt(joined, parts[0], 0);
    } else {
      var rest := parts[1..];
      JoinContains(rest, sep, i - 1);
      var k: nat :| k <= |Join(rest, sep)| && OccursAt(Join(rest, sep), rest[i - 1], k);
      OccursAfterPrefix(parts[0] + sep, Join(rest, sep), parts[i], k);
      assert joined == (parts[0] + sep) + Join(rest, sep);
    }
  }

  lemma JoinContainsAll(parts: seq<string>, sep: string)
    ensures forall i :: 0 <= i < |parts| ==> Contains(Join(parts, sep), parts[i])
  {
    forall i | 0 <= i < |parts|
      ensures Contains(Join(parts, sep), parts[i])
    {
      JoinContains(parts, sep, i);
    }
  }

  /** `toUpperCase` on one character; only the ASCII letters are mapped. */
  function Upper(c: char): char {
    if 'a' <= c <= 'z' then (c as int - 32) as char else c
  }

  /** The word with its first character upper-cased and the rest kept. */
  function Capitalise(w: string): string {
    if |w| == 0 then "" else [Upper(w[0])] + w[1..]
  }

  /** The characters `String.prototype.trim` removes: white space and line terminators. */
  predicate IsWhitespace(c: char) {
    || c == '\t' || c == '\n' || c == '\U{000B}' || c == '\U{000C}' || c == '\r'
    || c == ' ' || c == '\U{00A0}' || c == '\U{1680}'
    || ('\U{2000}' <= c <= '\U{200A}')
    || c == '\U{2028}' || c == '\U{2029}' || c == '\U{202F}' || c == '\U{205F}'
    || c == '\U{3000}' || c == '\U{FEFF}'
  }

  function TrimStart(s: string): (r: string)
    ensures |r| <= |s| && r == s[|s| - |r|..]
    ensures forall k :: 0 <= k < |s| - |r| ==> IsWhitespace(s[k])
    ensures |r| > 0 ==> !IsWhitespace(r[0])
  {
    if |s| > 0 && IsWhitespace(s[0]) then TrimStart(s[1..]) else s
  }

  function TrimEnd(s: string): (r: string)
    ensures |r| <= |s| && r == s[..|r|]
    ensures forall k :: |r| <= k < |s| ==> IsWhitespace(s[k])
    ensures |r| > 0 ==> !IsWhitespace(r[|r| - 1])
  {
    if |s| > 0 && IsWhitespace(s[|s| - 1]) then TrimEnd(s[..|s| - 1]) else s
  }

  /** `String.prototype.trim`. */
  function Trim(s: string): (r: string)
    ensures |r| <= |s|
    ensures |r| > 0 ==> !IsWhitespace(r[0]) && !IsWhitespace(r[|r| - 1])
  {
    TrimEnd(TrimStart(s))
  }

  /** The trimmed string is the slice of `s` between a whitespace-only prefix and a whitespace-only suffix. */
  lemma TrimIsSlice(s: string) returns (start: nat)
    ensures start + |Trim(s)| <= |s| && Trim(s) == s[start..start + |Trim(s)|]
    ensures forall k :: 0 <= k < start ==> IsWhitespace(s[k])
    ensures forall k :: start + |Trim(s)| <= k < |s| ==> IsWhitespace(s[k])
  {
    var front := TrimStart(s);
    start := |s| - |front|;
    var r := TrimEnd(front);
    assert r == Trim(s);
    TrimEndOfSuffix(s, start, front, r);
  }

  lemma TrimEndOfSuffix(s: string, start: nat, front: string, r: string)
    requires start <= |s| && front == s[start..]
    requires |r| <= |front| && r == front[..|r|]
    requires forall k :: |r| <= k < |front| ==> IsWhitespace(front[k])
    ensures r == s[start..start + |r|]
    ensures forall k :: start + |r| <= k < |s| ==> IsWhitespace(s[k])
  {
    forall k | start + |r| <= k < |s|
      ensures IsWhitespace(s[k])
    {
      assert s[k] == front[k - start];
    }
  }

  /** Trimming an already trimmed string changes nothing. */
  lemma TrimIdempotent(s: string)
    ensures Trim(Trim(s)) == Trim(s)
  {
    var r := Trim(s);
    if |r| > 0 {
      assert TrimStart(r) == r;
      assert TrimEnd(r) == r;
    }
  }
}
