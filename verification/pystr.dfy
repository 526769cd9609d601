/** The Python `str` operations the chat views are built from, modelled on
    ASCII text: `str.lower()`, `str.strip()`, deletion of the characters of
    `string.punctuation` through `str.translate`, the substring test
    `k in s`, and `sep.join(parts)`. */
module PyStr {

  // ---------------------------------------------------------------------
  // Case

  /** An ASCII upper-case letter, 'A'..'Z'. */
  predicate IsUpper(c: char) {
    'A' <= c <= 'Z'
  }

  /** `str.lower()` on one character: upper-case letters move to the
      lower-case range, every other character is kept. */
  function LowerChar(c: char): (d: char)
    ensures !IsUpper(d)
    ensures IsUpper(c) ==> 'a' <= d <= 'z' && d as int == c as int + 32
    ensures !IsUpper(c) ==> d == c
  {
    if IsUpper(c) then (c as int + 32) as char else c
  }

  /** `s.lower()`: the same length, every character lowered in place. */
  function Lower(s: string): (r: string)
    ensures |r| == |s|
    ensures forall i :: 0 <= i < |s| ==> r[i] == LowerChar(s[i])
  {
    if s == [] then [] else [LowerChar(s[0])] + Lower(s[1..])
  }

  /** Lower-casing leaves text without upper-case letters, and text
      without upper-case letters is its own lower-case form. */
  lemma LowerIdempotent(s: string)
    ensures forall i :: 0 <= i < |Lower(s)| ==> !IsUpper(Lower(s)[i])
    ensures Lower(Lower(s)) == Lower(s)
  {
  }

  /** Text without upper-case letters is its own lower-case form. */
  lemma LowerClean(s: string)
    requires forall i :: 0 <= i < |s| ==> !IsUpper(s[i])
    ensures Lower(s) == s
  {
  }

  // ---------------------------------------------------------------------
  // Whitespace

  /** `c.isspace()` on ASCII: the space, the controls '\t' '\n' '\v' '\f'
      '\r' (9..13) and the separators 0x1C..0x1F. */
  predicate IsSpace(c: char) {
    c == ' ' || 9 <= c as int <= 13 || 28 <= c as int <= 31
  }

  /** The index of the first non-space character of `s` at or after `i`,
      or `|s|` when there is none. */
  function SkipSpaces(s: string, i: nat): (j: nat)
    requires i <= |s|
    ensures i <= j <= |s|
    ensures forall k :: i <= k < j ==> IsSpace(s[k])
    ensures j < |s| ==> !IsSpace(s[j])
    decreases |s| - i
  {
    if i < |s| && IsSpace(s[i]) then SkipSpaces(s, i + 1) else i
  }

  /** The end of `s[lo..hi]` once trailing whitespace is dropped. */
  function TrimEnd(s: string, lo: nat, hi: nat): (j: nat)
    requires lo <= hi <= |s|
    ensures lo <= j <= hi
    ensures forall k :: j <= k < hi ==> IsSpace(s[k])
    ensures j > lo ==> !IsSpace(s[j - 1])
    decreases hi
  {
    if hi > lo && IsSpace(s[hi - 1]) then TrimEnd(s, lo, hi - 1) else hi
  }

  /** `r` is the slice of `s` starting at `i`, and everything of `s`
      outside that slice is whitespace. */
  ghost predicate StripsTo(s: string, i: int, r: string) {
    && 0 <= i && i + |r| <= |s|
    && s[i..i + |r|] == r
    && (forall k :: 0 <= k < i ==> IsSpace(s[k]))
    && (forall k :: i + |r| <= k < |s| ==> IsSpace(s[k]))
  }

  /** `s.strip()`: the slice of `s` obtained by removing whitespace at both
      ends; it neither starts nor ends with whitespace, and it is empty
      exactly when `s` is all whitespace. */
  function Strip(s: string): (r: string)
    ensures exists i :: StripsTo(s, i, r)
    ensures forall c :: c in r ==> c in s
    ensures |r| > 0 ==> !IsSpace(r[0]) && !IsSpace(r[|r| - 1])
    ensures r == [] <==> forall k :: 0 <= k < |s| ==> IsSpace(s[k])
  {
    var i := SkipSpaces(s, 0);
    var j := TrimEnd(s, i, |s|);
    assert StripsTo(s, i, s[i..j]);
    s[i..j]
  }

  /** Text that neither starts nor ends with whitespace is unchanged by
      `strip()`. */
  lemma StripClean(s: string)
    requires |s| > 0 ==> !IsSpace(s[0]) && !IsSpace(s[|s| - 1])
    ensures Strip(s) == s
  {
  }

  // ---------------------------------------------------------------------
  // Punctuation

  /** A character of Python's `string.punctuation`, the 32 ASCII
      characters !"#$%&'()*+,-./ :;<=>?@ [\]^_` {|}~ . */
  predicate IsPunctuation(c: char) {
    || 33 <= c as int <= 47
    || 58 <= c as int <= 64
    || 91 <= c as int <= 96
    || 123 <= c as int <= 126
  }

  /** `s.translate(str.maketrans('', '', string.punctuation))`: the
      characters of `s` that are not punctuation, in their order. */
  function DeletePunctuation(s: string): (r: string)
    ensures |r| <= |s|
    ensures forall i :: 0 <= i < |r| ==> !IsPunctuation(r[i])
    ensures forall c :: c in r <==> c in s && !IsPunctuation(c)
  {
    if s == [] then []
    else
      assert forall c :: c in s <==> c == s[0] || c in s[1..];
      (if IsPunctuation(s[0]) then [] else [s[0]]) + DeletePunctuation(s[1..])
  }

  /** Deleting punctuation keeps the relative order of what it keeps: it
      distributes over concatenation. */
  lemma {:induction false} DeletePunctuationAppend(a: string, b: string)
    ensures DeletePunctuation(a + b) == DeletePunctuation(a) + DeletePunctuation(b)
  {
    if a == [] {
      assert a + b == b;
    } else {
      assert (a + b)[1..] == a[1..] + b;
      DeletePunctuationAppend(a[1..], b);
    }
  }

  /** Text without punctuation is unchanged by the deletion. */
  lemma {:induction false} DeletePunctuationClean(s: string)
    requires forall i :: 0 <= i < |s| ==> !IsPunctuation(s[i])
    ensures DeletePunctuation(s) == s
  {
    if s != [] {
      DeletePunctuationClean(s[1..]);
    }
  }

  /** Lower-casing and deleting punctuation commute: lowering never turns
      a character into punctuation or punctuation into something else. */
  lemma {:induction false} LowerDeletePunctuationCommute(s: string)
    ensures DeletePunctuation(Lower(s)) == Lower(DeletePunctuation(s))
  {
    if s != [] {
      LowerDeletePunctuationCommute(s[1..]);
      assert Lower(s)[1..] == Lower(s[1..]);
      assert IsPunctuation(LowerChar(s[0])) <==> IsPunctuation(s[0]);
      assert Lower([s[0]] + DeletePunctuation(s[1..]))
          == [LowerChar(s[0])] + Lower(DeletePunctuation(s[1..]));
    }
  }

  // ---------------------------------------------------------------------
  // Substring test

  /** `k` occurs in `s` starting at index `i`. */
  ghost predicate OccursAt(s: string, k: string, i: int) {
    0 <= i && i + |k| <= |s| && s[i..i + |k|] == k
  }

  /** Python's `k in s` for strings: `k` is a prefix of `s` or of one of
      its suffixes. The empty string is in every string, nothing longer
      than `s` is in it, and a pattern as long as `s` is in it only when it
      is `s`. */
  function Contains(s: string, k: string): (b: bool)
    ensures |k| == 0 ==> b
    ensures b ==> |k| <= |s|
    ensures |k| == |s| ==> (b <==> s == k)
    decreases |s|
  {
    (|k| <= |s| && s[..|k|] == k) || (|s| > 0 && Contains(s[1..], k))
  }

  /** An occurrence at a position is found by the recursive test. */
  lemma {:induction false} OccursImpliesContains(s: string, k: string, i: int)
    requires OccursAt(s, k, i)
    ensures Contains(s, k)
    decreases i
  {
    if i > 0 {
      assert s[1..][i - 1..i - 1 + |k|] == s[i..i + |k|];
      OccursImpliesContains(s[1..], k, i - 1);
    }
  }

  /** The recursive test succeeds only at an actual position. */
  lemma {:induction false} ContainsImpliesOccurs(s: string, k: string) returns (i: int)
    requires Contains(s, k)
    ensures OccursAt(s, k, i)
    decreases |s|
  {
    if |k| <= |s| && s[..|k|] == k {
      i := 0;
    } else {
      var j := ContainsImpliesOccurs(s[1..], k);
      assert s[1..][j..j + |k|] == s[j + 1..j + 1 + |k|];
      i := j + 1;
    }
  }

  /** The recursive test agrees with the positional definition of a
      substring, in both directions. */
  lemma ContainsIffOccurs(s: string, k: string)
    ensures Contains(s, k) <==> exists i :: OccursAt(s, k, i)
  {
    if Contains(s, k) {
      var i := ContainsImpliesOccurs(s, k);
    }
    forall i | OccursAt(s, k, i)
      ensures Contains(s, k)
    {
      OccursImpliesContains(s, k, i);
    }
  }

  /** A pattern holding an upper-case letter never occurs in lower-cased
      text. */
  lemma UpperNeverInLowered(s: string, k: string, j: int)
    requires 0 <= j < |k| && IsUpper(k[j])
    ensures !Contains(Lower(s), k)
  {
    ContainsIffOccurs(Lower(s), k);
    if i :| OccursAt(Lower(s), k, i) {
      assert false;
    }
  }

  // ---------------------------------------------------------------------
  // Joining

  /** Sum of the lengths of `parts`. */
  function TotalLength(parts: seq<string>): nat {
    if parts == [] then 0 else |parts[0]| + TotalLength(parts[1..])
  }

  /** `sep.join(parts)`: the parts in order with one separator between
      each neighbouring pair; its length is the parts' total plus one
      separator per gap. */
  function Join(sep: string, parts: seq<string>): (r: string)
    ensures |parts| == 0 ==> r == ""
    ensures |parts| == 1 ==> r == parts[0]
    ensures |parts| > 0 ==> |r| == TotalLength(parts) + (|parts| - 1) * |sep|
  {
    if |parts| == 0 then ""
    else if |parts| == 1 then parts[0]
    else parts[0] + sep + Join(sep, parts[1..])
  }

  /** Joining the concatenation of two non-empty lists of parts is joining
      each and putting one separator between: the order of the parts is
      the order in the result. */
  lemma {:induction false} JoinAppend(sep: string, a: seq<string>, b: seq<string>)
    requires |a| > 0 && |b| > 0
    ensures Join(sep, a + b) == Join(sep, a) + sep + Join(sep, b)
  {
    if |a| == 1 {
      assert (a + b)[1..] == b;
    } else {
      assert (a + b)[1..] == a[1..] + b;
      JoinAppend(sep, a[1..], b);
    }
  }

  /** With a non-empty separator, the join is the empty string exactly
      when there is nothing to join or the only part is empty. */
  lemma JoinEmptyIff(sep: string, parts: seq<string>)
    requires |sep| > 0
    ensures Join(sep, parts) == "" <==> parts == [] || parts == [""]
  {
    if |parts| > 1 {
      assert |Join(sep, parts)| >= |sep|;
    }
  }
}
