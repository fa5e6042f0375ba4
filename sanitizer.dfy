/**
 * The filename sanitiser of utils/sanitize_filename.py: every character of the
 * regular-expression class [<>:"/\\|?*] is deleted, then surrounding
 * whitespace is stripped as Python's str.strip() does.
 */
module Sanitizer {

  /** The nine characters of the class [<>:"/\\|?*]. */
  predicate IsForbidden(c: char)
  {
    c == '<' || c == '>' || c == ':' || c == '"' || c == '/' ||
    c == '\\' || c == '|' || c == '?' || c == '*'
  }

  /** Python's str.isspace() on one code point: the characters str.strip() removes. */
  predicate IsSpace(c: char)
  {
    ('\t' <= c <= '\r') || ('\U{1C}' <= c <= '\U{1F}') || c == ' ' ||
    c == '\U{85}' || c == '\U{A0}' || c == '\U{1680}' ||
    ('\U{2000}' <= c <= '\U{200A}') || c == '\U{2028}' || c == '\U{2029}' ||
    c == '\U{202F}' || c == '\U{205F}' || c == '\U{3000}'
  }

  /** A string holding none of the forbidden characters. */
  predicate Clean(s: string)
  {
    forall i | 0 <= i < |s| :: !IsForbidden(s[i])
  }

  /** A string that neither starts nor ends with whitespace. */
  predicate Trimmed(s: string)
  {
    s == [] || (!IsSpace(s[0]) && !IsSpace(s[|s| - 1]))
  }

  /** `re.sub(r'[<>:"/\\|?*]', '', s)`: the forbidden characters are deleted, the rest kept in order. */
  function RemoveForbidden(s: string): (r: string)
    ensures |r| <= |s|
    ensures Clean(r)
  {
    if s == [] then []
    else if IsForbidden(s[0]) then RemoveForbidden(s[1..])
    else [s[0]] + RemoveForbidden(s[1..])
  }

  /** How many whitespace characters `s` starts with. */
  function LeadingSpaces(s: string): (k: nat)
    ensures k <= |s|
    ensures forall i | 0 <= i < k :: IsSpace(s[i])
    ensures k < |s| ==> !IsSpace(s[k])
  {
    if s != [] && IsSpace(s[0]) then 1 + LeadingSpaces(s[1..]) else 0
  }

  /** How many whitespace characters `s` ends with. */
  function TrailingSpaces(s: string): (k: nat)
    ensures k <= |s|
    ensures forall i | |s| - k <= i < |s| :: IsSpace(s[i])
    ensures k < |s| ==> !IsSpace(s[|s| - 1 - k])
  {
    if s != [] && IsSpace(s[|s| - 1]) then 1 + TrailingSpaces(s[..|s| - 1]) else 0
  }

  /** `s.lstrip()` */
  function TrimStart(s: string): string
  {
    s[LeadingSpaces(s)..]
  }

  /**
   * `s.strip()`, computed as CPython does: the window from the first to the
   * last non-whitespace character, empty when there is none.
   */
  function Strip(s: string): (r: string)
    ensures Trimmed(r)
    ensures |r| <= |s|
  {
    var lo := LeadingSpaces(s);
    var hi := if lo == |s| then lo else |s| - TrailingSpaces(s);
    s[lo..hi]
  }

  /** The window `Strip` keeps: only whitespace lies outside it, and everything inside it is kept. */
  lemma StripIsWindow(s: string)
    ensures var r := Strip(s); var lo := LeadingSpaces(s);
      lo + |r| <= |s| && r == s[lo..lo + |r|] &&
      (forall i | 0 <= i < lo :: IsSpace(s[i])) &&
      (forall i | lo + |r| <= i < |s| :: IsSpace(s[i]))
  {
  }

  /**
   * `sanitize_filename(filename)`: forbidden characters are deleted first and
   * the whitespace that is then at either end is stripped.
   */
  function SanitizeFilename(filename: string): (r: string)
    ensures Clean(r)
    ensures Trimmed(r)
    ensures |r| <= |filename|
  {
    var t := RemoveForbidden(filename);
    CleanWindow(t, LeadingSpaces(t), LeadingSpaces(t) + |Strip(t)|);
    Strip(t)
  }

  /** A window of a clean string is clean. */
  lemma CleanWindow(s: string, lo: int, hi: int)
    requires Clean(s) && 0 <= lo <= hi <= |s|
    ensures Clean(s[lo..hi])
  {
    forall i | 0 <= i < hi - lo ensures !IsForbidden(s[lo..hi][i]) {
      assert s[lo..hi][i] == s[lo + i];
    }
  }

  /** Every character of `RemoveForbidden(s)` comes from `s`, and every allowed character of `s` is kept. */
  lemma {:induction false} RemoveForbiddenMembers(s: string, c: char)
    ensures c in RemoveForbidden(s) <==> c in s && !IsForbidden(c)
  {
    if s != [] {
      RemoveForbiddenMembers(s[1..], c);
      assert c in s <==> c == s[0] || c in s[1..];
    }
  }

  /** Deleting forbidden characters from a string that has none changes nothing. */
  lemma {:induction false} RemoveForbiddenOfClean(s: string)
    requires Clean(s)
    ensures RemoveForbidden(s) == s
  {
    if s != [] {
      CleanWindow(s, 1, |s|);
      RemoveForbiddenOfClean(s[1..]);
    }
  }

  /** Stripping a string with no surrounding whitespace changes nothing. */
  lemma StripOfTrimmed(s: string)
    requires Trimmed(s)
    ensures Strip(s) == s
  {
  }

  /** A string with no forbidden characters and no surrounding whitespace is returned unchanged. */
  lemma SanitizeFixesCleanNames(s: string)
    requires Clean(s) && Trimmed(s)
    ensures SanitizeFilename(s) == s
  {
    RemoveForbiddenOfClean(s);
    StripOfTrimmed(s);
  }

  /** Sanitising twice gives what sanitising once gives. */
  lemma SanitizeIdempotent(s: string)
    ensures SanitizeFilename(SanitizeFilename(s)) == SanitizeFilename(s)
  {
    SanitizeFixesCleanNames(SanitizeFilename(s));
  }

  /** Stripping keeps every non-whitespace character of its input. */
  lemma StripKeepsNonSpace(s: string, c: char)
    requires c in s && !IsSpace(c)
    ensures c in Strip(s)
  {
    var r := Strip(s);
    var lo := LeadingSpaces(s);
    StripIsWindow(s);
    var i :| 0 <= i < |s| && s[i] == c;
    assert lo <= i < lo + |r|;
    assert r[i - lo] == c;
  }

  /**
   * Sanitising deletes only forbidden characters and surrounding whitespace:
   * every other character of the input survives.
   */
  lemma SanitizeKeepsOrdinaryChars(s: string, c: char)
    requires c in s && !IsForbidden(c) && !IsSpace(c)
    ensures c in SanitizeFilename(s)
  {
    RemoveForbiddenMembers(s, c);
    StripKeepsNonSpace(RemoveForbidden(s), c);
  }

  /**
   * Deletion happens before stripping: whitespace exposed by a deleted
   * character is stripped too.
   */
  lemma RemovalBeforeStrip()
    ensures SanitizeFilename("? a") == "a"
  {
    var a: string := "a";
    var sa: string := " a";
    var qsa: string := "? a";
    assert RemoveForbidden(a) == a by {
      assert a[1..] == [];
    }
    assert RemoveForbidden(sa) == sa by {
      assert sa[1..] == a;
    }
    assert RemoveForbidden(qsa) == sa by {
      assert qsa[1..] == sa;
    }
    assert LeadingSpaces(sa) == 1 by {
      assert sa[1..] == a;
    }
    assert TrailingSpaces(sa) == 0;
  }

  /** The opposite order would keep that whitespace. */
  lemma StripBeforeRemoval()
    ensures RemoveForbidden(Strip("? a")) == " a"
  {
    var a: string := "a";
    var sa: string := " a";
    var qsa: string := "? a";
    StripOfTrimmed(qsa);
    assert RemoveForbidden(qsa) == [' '] + RemoveForbidden(a) by {
      assert qsa[1..] == sa;
      assert sa[1..] == a;
    }
    assert RemoveForbidden(a) == a by {
      assert a[1..] == [];
    }
  }

  /** Whitespace between other characters is kept. */
  lemma InteriorSpaceKept()
    ensures SanitizeFilename("a b") == "a b"
  {
    SanitizeFixesCleanNames("a b");
  }

  // ---------------------------------------------------------------------
  // The result is a subsequence of the input.

  /** `a` is obtained from `b` by deleting characters, without reordering. */
  predicate IsSubsequence<T(==)>(a: seq<T>, b: seq<T>)
    decreases |b|
  {
    a == [] ||
    (b != [] && ((a[0] == b[0] && IsSubsequence(a[1..], b[1..])) || IsSubsequence(a, b[1..])))
  }

  lemma {:induction false} SubsequenceReflexive<T>(a: seq<T>)
    ensures IsSubsequence(a, a)
  {
    if a != [] {
      SubsequenceReflexive(a[1..]);
    }
  }

  lemma {:induction false} SuffixIsSubsequence<T>(s: seq<T>, k: nat)
    requires k <= |s|
    ensures IsSubsequence(s[k..], s)
  {
    if k == 0 {
      assert s[0..] == s;
      SubsequenceReflexive(s);
    } else {
      assert s[1..][k - 1..] == s[k..];
      SuffixIsSubsequence(s[1..], k - 1);
    }
  }

  lemma {:induction false} PrefixIsSubsequence<T>(s: seq<T>, k: nat)
    requires k <= |s|
    ensures IsSubsequence(s[..k], s)
  {
    if k > 0 {
      assert s[..k][1..] == s[1..][..k - 1];
      PrefixIsSubsequence(s[1..], k - 1);
    }
  }

  lemma {:induction false} SubsequenceTransitive<T>(a: seq<T>, b: seq<T>, c: seq<T>)
    requires IsSubsequence(a, b) && IsSubsequence(b, c)
    ensures IsSubsequence(a, c)
    decreases |c|
  {
    if a != [] {
      if IsSubsequence(b, c[1..]) {
        SubsequenceTransitive(a, b, c[1..]);
      } else if a[0] == b[0] && IsSubsequence(a[1..], b[1..]) {
        SubsequenceTransitive(a[1..], b[1..], c[1..]);
      } else {
        SubsequenceTransitive(a, b[1..], c[1..]);
      }
    }
  }

  lemma {:induction false} RemoveForbiddenIsSubsequence(s: string)
    ensures IsSubsequence(RemoveForbidden(s), s)
  {
    if s != [] {
      RemoveForbiddenIsSubsequence(s[1..]);
      if !IsForbidden(s[0]) {
        assert RemoveForbidden(s)[1..] == RemoveForbidden(s[1..]);
      }
    }
  }

  /** Characters are only deleted, never inserted or reordered. */
  lemma SanitizeIsSubsequence(s: string)
    ensures IsSubsequence(SanitizeFilename(s), s)
  {
    var t := RemoveForbidden(s);
    var lo := LeadingSpaces(t);
    var r := Strip(t);
    StripIsWindow(t);
    assert r == t[lo..][..|r|];
    PrefixIsSubsequence(t[lo..], |r|);
    SuffixIsSubsequence(t, lo);
    SubsequenceTransitive(r, t[lo..], t);
    RemoveForbiddenIsSubsequence(s);
    SubsequenceTransitive(r, t, s);
  }

  // ---------------------------------------------------------------------
  // How sanitising treats a clean suffix (used for download filenames).

  lemma {:induction false} RemoveForbiddenAppend(a: string, b: string)
    ensures RemoveForbidden(a + b) == RemoveForbidden(a) + RemoveForbidden(b)
  {
    if a != [] {
      assert (a + b)[1..] == a[1..] + b;
      RemoveForbiddenAppend(a[1..], b);
    } else {
      assert a + b == b;
    }
  }

  lemma {:induction false} LeadingSpacesAppend(a: string, b: string)
    requires b != [] && !IsSpace(b[0])
    ensures LeadingSpaces(a + b) == LeadingSpaces(a)
  {
    if a != [] {
      assert (a + b)[1..] == a[1..] + b;
      if IsSpace(a[0]) {
        LeadingSpacesAppend(a[1..], b);
      }
    } else {
      assert a + b == b;
    }
  }

  /** Stripping a string that ends in a trimmed, non-empty suffix strips only its start. */
  lemma StripBeforeTrimmedSuffix(t: string, b: string)
    requires b != [] && Trimmed(b)
    ensures Strip(t + b) == TrimStart(t) + b
  {
    var u := t + b;
    var lo := LeadingSpaces(t);
    assert LeadingSpaces(u) == lo by {
      LeadingSpacesAppend(t, b);
    }
    assert TrailingSpaces(u) == 0 by {
      assert u[|u| - 1] == b[|b| - 1];
    }
    assert Strip(u) == u[lo..|u|];
    assert u[lo..|u|] == t[lo..] + b;
  }

  /**
   * A suffix that has no forbidden characters and no surrounding whitespace
   * survives sanitising unchanged, at the end of the result.
   */
  lemma SanitizeKeepsCleanSuffix(a: string, b: string)
    requires b != [] && Clean(b) && Trimmed(b)
    ensures SanitizeFilename(a + b) == TrimStart(RemoveForbidden(a)) + b
  {
    RemoveForbiddenAppend(a, b);
    RemoveForbiddenOfClean(b);
    StripBeforeTrimmedSuffix(RemoveForbidden(a), b);
  }
}
