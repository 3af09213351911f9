/**
 * Python's str.replace(pattern, replacement) with no count: every
 * non-overlapping occurrence of the pattern, found from left to right, is
 * replaced. The normalizer mirrors an input path into the output folder this
 * way (app.py, lines 122 and 127).
 */
module Paths {

  /** The pattern occurs in s starting at position i. */
  predicate OccursAt(s: string, pattern: string, i: int)
  {
    0 <= i && i + |pattern| <= |s| && s[i..i + |pattern|] == pattern
  }

  predicate Occurs(s: string, pattern: string)
  {
    exists i :: 0 <= i <= |s| && OccursAt(s, pattern, i)
  }

  /** The result of s.replace(pattern, replacement). With an empty pattern,
      Python inserts the replacement before every character and once at the end. */
  function Replace(s: string, pattern: string, replacement: string): string
    decreases |s|
  {
    if |pattern| == 0 then
      if |s| == 0 then replacement
      else replacement + [s[0]] + Replace(s[1..], pattern, replacement)
    else if |s| < |pattern| then s
    else if s[..|pattern|] == pattern then
      replacement + Replace(s[|pattern|..], pattern, replacement)
    else [s[0]] + Replace(s[1..], pattern, replacement)
  }

  /** A non-empty pattern that does not occur leaves the string unchanged. */
  lemma {:induction false} ReplaceAbsent(s: string, pattern: string, replacement: string)
    requires |pattern| > 0
    requires !Occurs(s, pattern)
    ensures Replace(s, pattern, replacement) == s
    decreases |s|
  {
    if |s| >= |pattern| {
      assert !OccursAt(s, pattern, 0);
      assert !Occurs(s[1..], pattern) by {
        forall i | OccursAt(s[1..], pattern, i)
          ensures OccursAt(s, pattern, i + 1)
        {
          assert s[1..][i..i + |pattern|] == s[i + 1..i + 1 + |pattern|];
        }
      }
      ReplaceAbsent(s[1..], pattern, replacement);
    }
  }

  /** A leading occurrence is always the first one replaced, and scanning
      resumes right after it. */
  lemma ReplaceLeading(pattern: string, rest: string, replacement: string)
    requires |pattern| > 0
    ensures Replace(pattern + rest, pattern, replacement)
         == replacement + Replace(rest, pattern, replacement)
  {
    var s := pattern + rest;
    assert s[..|pattern|] == pattern;
    assert s[|pattern|..] == rest;
  }

  /** The path mirroring the normalizer relies on: a path made of the input
      root followed by a remainder in which the root does not occur again is
      sent to the output root followed by the same remainder. */
  lemma MirrorPath(root: string, rest: string, outRoot: string)
    requires |root| > 0
    requires !Occurs(rest, root)
    ensures Replace(root + rest, root, outRoot) == outRoot + rest
  {
    ReplaceLeading(root, rest, outRoot);
    ReplaceAbsent(rest, root, outRoot);
  }

  /** An occurrence of the pattern at i + 1 in s is one at i in s[1..]. */
  lemma OccursShift(s: string, pattern: string, i: nat)
    requires |s| > 0
    ensures OccursAt(s, pattern, i + 1) <==> OccursAt(s[1..], pattern, i)
  {
    if i + 1 + |pattern| <= |s| {
      assert s[1..][i..i + |pattern|] == s[i + 1..i + 1 + |pattern|];
    }
  }

  /** No occurrence before i + 1 in s means none before i in s[1..]. */
  lemma NoEarlierShift(s: string, pattern: string, i: nat)
    requires |s| > 0
    requires forall j :: 0 <= j < i + 1 ==> !OccursAt(s, pattern, j)
    ensures forall j :: 0 <= j < i ==> !OccursAt(s[1..], pattern, j)
  {
    forall j: nat | j < i
      ensures !OccursAt(s[1..], pattern, j)
    {
      OccursShift(s, pattern, j);
    }
  }

  /** Where the pattern does not start, the first character is kept. */
  lemma ReplaceKeepsHead(s: string, pattern: string, replacement: string)
    requires |pattern| > 0 && |s| >= |pattern|
    requires !OccursAt(s, pattern, 0)
    ensures Replace(s, pattern, replacement) == [s[0]] + Replace(s[1..], pattern, replacement)
  {
    assert s[..|pattern|] != pattern;
  }

  /** Putting one character in front of a three-part string extends its first part. */
  lemma PrependToSplit(c: char, whole: string, front: string, middle: string, back: string)
    requires whole == front + middle + back
    ensures [c] + whole == ([c] + front) + middle + back
  {
  }

  /** The replacement step on a string cut at its first occurrence: the part
      before it is kept, the occurrence is replaced, and the search resumes
      on the part after it. */
  lemma {:induction false} ReplaceAfterPrefix(pre: string, pattern: string, post: string, replacement: string)
    requires |pattern| > 0
    requires forall j :: 0 <= j < |pre| ==> !OccursAt(pre + pattern + post, pattern, j)
    ensures Replace(pre + pattern + post, pattern, replacement)
         == pre + replacement + Replace(post, pattern, replacement)
    decreases |pre|
  {
    var s := pre + pattern + post;
    if |pre| == 0 {
      assert s == pattern + post;
      ReplaceLeading(pattern, post, replacement);
    } else {
      var rest := pre[1..] + pattern + post;
      assert s == [pre[0]] + rest;
      ReplaceKeepsHead(s, pattern, replacement);
      NoEarlierShift(s, pattern, |pre| - 1);
      ReplaceAfterPrefix(pre[1..], pattern, post, replacement);
      PrependToSplit(pre[0], Replace(rest, pattern, replacement), pre[1..], replacement,
                     Replace(post, pattern, replacement));
      assert [pre[0]] + pre[1..] == pre;
    }
  }

  /** A string is the concatenation of its three slices around [i, k). */
  lemma CutAround(s: string, i: nat, k: nat)
    requires i <= k <= |s|
    ensures s == s[..i] + s[i..k] + s[k..]
  {
  }

  /** The general replacement step: the first occurrence of a non-empty
      pattern, at i, is replaced, everything before it is kept, and the
      search resumes right after it. With ReplaceAbsent for the part where
      the pattern no longer occurs, this accounts for every occurrence. */
  lemma ReplaceFirstOccurrence(s: string, pattern: string, replacement: string, i: nat)
    requires |pattern| > 0
    requires OccursAt(s, pattern, i)
    requires forall j :: 0 <= j < i ==> !OccursAt(s, pattern, j)
    ensures Replace(s, pattern, replacement)
         == s[..i] + replacement + Replace(s[i + |pattern|..], pattern, replacement)
  {
    var pre, post := s[..i], s[i + |pattern|..];
    CutAround(s, i, i + |pattern|);
    assert s == pre + pattern + post;
    ReplaceAfterPrefix(pre, pattern, post, replacement);
  }

  /** Two instances: both occurrences are replaced, and with an empty
      pattern the replacement goes between all characters and at both ends. */
  lemma ReplacesEveryOccurrence()
    ensures Replace("a/a", "a", "b") == "b/b"
    ensures Replace("ab", "", "-") == "-a-b-"
  {
    assert "a/a"[..1] == "a";
    assert "a/a"[1..][..1][0] == '/';
    assert "a/a"[1..][1..][..1] == "a";
  }
}
