/**
 * The string operations the blog relies on, with JavaScript's meaning:
 * `String.prototype.trim`, `split` on one separator character, `join`, and the
 * case-insensitive substring test the post search performs.
 */
module Text {

  /** The characters `trim` removes: ECMAScript WhiteSpace and LineTerminator. */
  predicate IsSpace(c: char) {
    || c == ' ' || c == '\t' || c == '\n' || c == '\r' || c == '\U{000B}' || c == '\U{000C}'
    || c == '\U{00A0}' || c == '\U{1680}' || ('\U{2000}' <= c <= '\U{200A}')
    || c == '\U{2028}' || c == '\U{2029}' || c == '\U{202F}' || c == '\U{205F}'
    || c == '\U{3000}' || c == '\U{FEFF}'
  }

  /** `s` neither starts nor ends with white space. */
  predicate Trimmed(s: string) {
    s == [] || (!IsSpace(s[0]) && !IsSpace(s[|s| - 1]))
  }

  /** `s` without its leading white space: a suffix of `s`, and everything dropped was white space. */
  function TrimStart(s: string): (r: string)
    ensures |r| <= |s| && r == s[|s| - |r|..]
    ensures forall i :: 0 <= i < |s| - |r| ==> IsSpace(s[i])
    ensures r == [] || !IsSpace(r[0])
  {
    if s != [] && IsSpace(s[0]) then TrimStart(s[1..]) else s
  }

  /** `s` without its trailing white space: a prefix of `s`, and everything dropped was white space. */
  function TrimEnd(s: string): (r: string)
    ensures |r| <= |s| && r == s[..|r|]
    ensures forall i :: |r| <= i < |s| ==> IsSpace(s[i])
    ensures r == [] || !IsSpace(r[|r| - 1])
  {
    if s != [] && IsSpace(s[|s| - 1]) then TrimEnd(s[..|s| - 1]) else s
  }

  /** `r` is the slice of `s` at `a`, and everything of `s` outside it is white space. */
  predicate SpaceAround(s: string, r: string, a: int) {
    && 0 <= a && a + |r| <= |s| && r == s[a..a + |r|]
    && (forall i :: 0 <= i < a ==> IsSpace(s[i]))
    && (forall i :: a + |r| <= i < |s| ==> IsSpace(s[i]))
  }

  /**
   * A suffix `header` of `s` after white space, cut down to a prefix `r`
   * before white space, is a slice of `s` with only white space around it.
   */
  lemma PrefixOfSuffix(s: string, header: string, r: string)
    requires |header| <= |s| && header == s[|s| - |header|..]
    requires forall i :: 0 <= i < |s| - |header| ==> IsSpace(s[i])
    requires |r| <= |header| && r == header[..|r|]
    requires forall j :: |r| <= j < |header| ==> IsSpace(header[j])
    ensures SpaceAround(s, r, |s| - |header|)
  {
    var a := |s| - |header|;
    forall i | a + |r| <= i < |s| ensures IsSpace(s[i]) {
      assert s[i] == header[i - a];
    }
  }

  /** Removing leading and then trailing white space keeps only characters of `s` and leaves a trimmed `s` alone. */
  lemma StartThenEndTrimmed(s: string)
    ensures var r := TrimEnd(TrimStart(s));
      && Trimmed(r) && |r| <= |s| && (forall c :: c in r ==> c in s) && (Trimmed(s) ==> r == s)
  {
    var header := TrimStart(s);
    var r := TrimEnd(header);
    assert r != [] ==> r[0] == header[0];
    assert forall c :: c in r ==> c in header;
    assert Trimmed(s) && s != [] ==> header == s;
  }

  /**
   * JavaScript's `trim`: the result is the slice of `s` left once the white
   * space at both ends is removed, and nothing in between is touched.
   */
  function Trim(s: string): (r: string)
    ensures Trimmed(r)
    ensures |r| <= |s|
    ensures forall c :: c in r ==> c in s
    ensures Trimmed(s) ==> r == s
    ensures exists a :: SpaceAround(s, r, a)
  {
    PrefixOfSuffix(s, TrimStart(s), TrimEnd(TrimStart(s)));
    StartThenEndTrimmed(s);
    TrimEnd(TrimStart(s))
  }

  /** Trimming twice is trimming once. */
  lemma TrimIdempotent(s: string)
    ensures Trim(Trim(s)) == Trim(s)
  {
  }

  /** Leading white space makes no difference to the trimmed string. */
  lemma TrimSkipsLeadingSpace(c: char, s: string)
    requires IsSpace(c)
    ensures Trim([c] + s) == Trim(s)
  {
    assert ([c] + s)[1..] == s;
  }

  /**
   * The strings of `parts` with `sep` between consecutive ones
   * (`Array.prototype.join`): it starts with the first part and ends with the last.
   */
  function Join(parts: seq<string>, sep: string): (r: string)
    ensures parts == [] ==> r == []
    ensures parts != [] ==> |parts[0]| <= |r| && r[..|parts[0]|] == parts[0]
    ensures parts != [] ==> |parts[|parts| - 1]| <= |r| && r[|r| - |parts[|parts| - 1]|..] == parts[|parts| - 1]
  {
    if |parts| == 0 then []
    else if |parts| == 1 then parts[0]
    else parts[0] + sep + Join(parts[1..], sep)
  }

  /** Prepending to the first part prepends to the joined string. */
  lemma {:induction false} JoinPrepend(x: string, parts: seq<string>, sep: string)
    requires parts != []
    ensures Join([x + parts[0]] + parts[1..], sep) == x + Join(parts, sep)
  {
    var ps := [x + parts[0]] + parts[1..];
    assert ps[1..] == parts[1..];
  }

  /**
   * `s.split(sep)`: the maximal pieces of `s` between occurrences of `sep`,
   * in order, empty pieces kept.
   */
  function Split(s: string, sep: char): (r: seq<string>)
    ensures r != []
    ensures forall i :: 0 <= i < |r| ==> sep !in r[i]
  {
    if s == [] then [[]]
    else
      var rest := Split(s[1..], sep);
      if s[0] == sep then [[]] + rest
      else [[s[0]] + rest[0]] + rest[1..]
  }

  /** There is one piece more than there are separators. */
  lemma {:induction false} SplitCount(s: string, sep: char)
    ensures |Split(s, sep)| == multiset(s)[sep] + 1
  {
    if s != [] {
      SplitCount(s[1..], sep);
      assert s == [s[0]] + s[1..];
    }
  }

  /** Joining the pieces of `s` with the separator gives `s` back. */
  lemma {:induction false} JoinSplit(s: string, sep: char)
    ensures Join(Split(s, sep), [sep]) == s
  {
    if s != [] {
      var rest := Split(s[1..], sep);
      JoinSplit(s[1..], sep);
      assert s == [s[0]] + s[1..];
      if s[0] == sep {
        assert ([[]] + rest)[1..] == rest;
      } else {
        JoinPrepend([s[0]], rest, [sep]);
      }
    }
  }

  /** A string free of the separator splits into itself alone. */
  lemma SplitWithoutSeparator(s: string, sep: char)
    requires sep !in s
    ensures Split(s, sep) == [s]
  {
    assert multiset(s)[sep] == 0;
    SplitCount(s, sep);
    JoinSplit(s, sep);
    assert Join(Split(s, sep), [sep]) == Split(s, sep)[0];
  }

  /** Splitting `a + [sep] + b`, where `a` has no separator, yields `a` and then the pieces of `b`. */
  lemma {:induction false} SplitAfterPiece(a: string, sep: char, b: string)
    requires sep !in a
    ensures Split(a + [sep] + b, sep) == [a] + Split(b, sep)
  {
    if a == [] {
      assert a + [sep] + b == [sep] + b;
      assert ([sep] + b)[1..] == b;
    } else {
      var s := a + [sep] + b;
      assert s[0] == a[0] && s[1..] == a[1..] + [sep] + b;
      SplitAfterPiece(a[1..], sep, b);
      var rest := Split(s[1..], sep);
      assert rest == [a[1..]] + Split(b, sep);
      assert Split(s, sep) == [[a[0]] + rest[0]] + rest[1..];
      assert [a[0]] + a[1..] == a;
    }
  }

  /** ASCII lower-casing of one character. */
  function LowerChar(c: char): (r: char)
    ensures 'A' <= c <= 'Z' ==> 'a' <= r <= 'z' && r as int == c as int + 32
    ensures !('A' <= c <= 'Z') ==> r == c
  {
    if 'A' <= c <= 'Z' then (c as int - 'A' as int + 'a' as int) as char else c
  }

  /** `s` with each ASCII capital replaced by its lower-case letter. */
  function Lower(s: string): (r: string)
    ensures |r| == |s|
    ensures forall i :: 0 <= i < |s| ==> r[i] == LowerChar(s[i])
  {
    seq(|s|, i requires 0 <= i < |s| => LowerChar(s[i]))
  }

  /** `p` occurs in `s` starting at index `i`. */
  predicate OccursAt(s: string, p: string, i: int) {
    0 <= i && i + |p| <= |s| && s[i..i + |p|] == p
  }

  /** `p` is a substring of `s`: it occurs at some position. */
  predicate Contains(s: string, p: string) {
    exists i | 0 <= i <= |s| - |p| :: OccursAt(s, p, i)
  }

  /** Lower-casing twice is lower-casing once. */
  lemma LowerIdempotent(s: string)
    ensures Lower(Lower(s)) == Lower(s)
  {
  }

  /**
   * The search test: `p` occurs in `s` when both are lower-cased. The empty
   * pattern always occurs, and so does any pattern occurring with the same case.
   */
  function ContainsIgnoringCase(s: string, p: string): (r: bool)
    ensures p == [] ==> r
    ensures Contains(s, p) ==> r
  {
    if Contains(s, p) then
      var i :| 0 <= i <= |s| - |p| && OccursAt(s, p, i);
      assert forall k :: 0 <= k < |p| ==> Lower(s)[i + k] == Lower(p)[k] by {
        forall k | 0 <= k < |p| ensures Lower(s)[i + k] == Lower(p)[k] {
          assert s[i + k] == s[i..i + |p|][k];
        }
      }
      assert OccursAt(Lower(s), Lower(p), i);
      Contains(Lower(s), Lower(p))
    else
      assert p == [] ==> OccursAt(Lower(s), Lower(p), 0);
      Contains(Lower(s), Lower(p))
  }

  /** The case of the search term and of the searched text makes no difference. */
  lemma CaseIgnored(s: string, p: string)
    ensures ContainsIgnoringCase(Lower(s), p) == ContainsIgnoringCase(s, p)
    ensures ContainsIgnoringCase(s, Lower(p)) == ContainsIgnoringCase(s, p)
  {
    LowerIdempotent(s);
    LowerIdempotent(p);
  }
}
