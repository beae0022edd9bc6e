/**
 * The three string operations the factories apply to a distribution name:
 * str.lower(), str.replace(" ", "_") and str.strip(). Only ASCII letters
 * change case and only ASCII whitespace is stripped.
 */
module Text {

  function LowerChar(c: char): char
  {
    if 'A' <= c <= 'Z' then (c as int - 'A' as int + 'a' as int) as char else c
  }

  /** str.lower(): every upper-case letter replaced by its lower-case form, nothing else changed. */
  function Lower(s: string): (r: string)
    ensures |r| == |s|
    ensures forall i :: 0 <= i < |s| ==> r[i] == LowerChar(s[i])
  {
    if s == [] then [] else [LowerChar(s[0])] + Lower(s[1..])
  }

  /** str.replace(" ", "_"): every space becomes an underscore, every other character stays. */
  function ReplaceSpaces(s: string): (r: string)
    ensures |r| == |s|
    ensures forall i :: 0 <= i < |s| ==> r[i] == (if s[i] == ' ' then '_' else s[i])
    ensures ' ' !in r
  {
    if s == [] then [] else [if s[0] == ' ' then '_' else s[0]] + ReplaceSpaces(s[1..])
  }

  /** The characters str.isspace() accepts in the ASCII range. */
  predicate IsSpace(c: char)
  {
    c == ' ' || '\t' <= c <= '\r' || '\U{1c}' <= c <= '\U{1f}'
  }

  function TrimStart(s: string): (r: string)
    ensures |r| <= |s| && r == s[|s| - |r|..]
    ensures r == [] || !IsSpace(r[0])
    ensures forall i :: 0 <= i < |s| - |r| ==> IsSpace(s[i])
  {
    if s != [] && IsSpace(s[0]) then TrimStart(s[1..]) else s
  }

  function TrimEnd(s: string): (r: string)
    ensures |r| <= |s| && r == s[..|r|]
    ensures r == [] || !IsSpace(r[|r| - 1])
    ensures forall i :: |r| <= i < |s| ==> IsSpace(s[i])
  {
    if s != [] && IsSpace(s[|s| - 1]) then TrimEnd(s[..|s| - 1]) else s
  }

  /** str.strip(): whitespace removed from both ends. */
  function Strip(s: string): string
  {
    TrimEnd(TrimStart(s))
  }

  /** s[i..j] is s with the whitespace before i and from j on cut away. */
  predicate CutAt(s: string, i: int, j: int)
  {
    && 0 <= i <= j <= |s|
    && (forall k :: 0 <= k < i ==> IsSpace(s[k]))
    && (forall k :: j <= k < |s| ==> IsSpace(s[k]))
  }

  /**
   * What strip returns is the slice of s that neither starts nor ends with
   * whitespace and outside which there is only whitespace.
   */
  lemma StripIsTrimmedSlice(s: string)
    ensures exists i, j :: CutAt(s, i, j) && Strip(s) == s[i..j]
    ensures StripHasNoOuterSpace(s)
  {
    var t := TrimStart(s);
    var i := |s| - |t|;
    var r := TrimEnd(t);
    assert CutAt(s, i, i + |r|) && Strip(s) == s[i..i + |r|] by {
      SpaceAfterSlice(s, i, |r|);
    }
  }

  /** strip's result neither starts nor ends with whitespace. */
  predicate StripHasNoOuterSpace(s: string)
  {
    var r := Strip(s);
    r == [] || (!IsSpace(r[0]) && !IsSpace(r[|r| - 1]))
  }

  /** Whitespace after position n of the suffix s[i..] is whitespace after position i + n of s. */
  lemma SpaceAfterSlice(s: string, i: nat, n: nat)
    requires i + n <= |s|
    requires forall k :: n <= k < |s| - i ==> IsSpace(s[i..][k])
    ensures forall k :: i + n <= k < |s| ==> IsSpace(s[k])
  {
    forall k | i + n <= k < |s|
      ensures IsSpace(s[k])
    {
      assert s[i..][k - i] == s[k];
    }
  }

  /** A string that neither starts nor ends with whitespace is its own strip. */
  lemma StripUnchanged(s: string)
    requires s == [] || (!IsSpace(s[0]) && !IsSpace(s[|s| - 1]))
    ensures Strip(s) == s
  {
  }

  /** Lower-casing twice is lower-casing once. */
  lemma LowerIdempotent(s: string)
    ensures Lower(Lower(s)) == Lower(s)
  {
    var t := Lower(s);
    assert forall i :: 0 <= i < |t| ==> Lower(t)[i] == t[i];
  }

  /** msg holds item at position at, between single quotes. */
  predicate Quotes(msg: string, item: string, at: nat)
  {
    1 <= at && at + |item| < |msg| && msg[at - 1] == '\'' && msg[at..at + |item|] == item && msg[at + |item|] == '\''
  }

  /** A name without underscores is produced by replacing spaces only from itself. */
  lemma ReplaceSpacesFixesOnlyItself(s: string, t: string)
    requires '_' !in t && ReplaceSpaces(s) == t
    ensures s == t
  {
    assert forall i :: 0 <= i < |s| ==> s[i] == t[i];
  }
}
