/**
 * The C++11-compatible string_view: find, split, equality and the clamping substr.
 * A view is the string it shows; sizes and positions are 64-bit size_t values.
 */
module StringView {
  import opened Basics

  const SIZE_MODULUS: nat := 0x1_0000_0000_0000_0000
  const NPOS: nat := SIZE_MODULUS - 1

  // ---------------------------------------------------------------- substr

  /** A sub-view, relative to the start of the view it was taken from. */
  datatype Span = Span(offset: nat, size: nat)

  /** `offset + len` is computed in size_t and may wrap. */
  function Substr(size: nat, pos: nat, len: nat): Span {
    var offset := if pos < size then pos else size;
    Span(offset, if len == NPOS || (offset + len) % SIZE_MODULUS > size then size - offset else len)
  }

  /**
   * The sub-view stays inside the view exactly when the sum does not wrap, and then it
   * is the clamped slice.  When it wraps the view reaches past the end, by the whole length asked for.
   */
  lemma SubstrIsClampedSlice(size: nat, pos: nat, len: nat)
    requires size <= NPOS && pos <= NPOS && len <= NPOS
    ensures var r := Substr(size, pos, len);
      && (r.offset + r.size <= size <==> len == NPOS || Min(pos, size) + len < SIZE_MODULUS)
      && (r.offset + r.size <= size ==> r == Span(Min(pos, size), Min(len, size - Min(pos, size))))
      && (r.offset + r.size > size ==> r == Span(Min(pos, size), len))
  {
  }

  /** A wrapped sum: a view of five shows almost 2^64 characters from its third on. */
  lemma SubstrWraps()
    ensures Substr(5, 3, NPOS - 1) == Span(3, NPOS - 1)
  {
    assert (3 + (NPOS - 1)) % SIZE_MODULUS == 1;
  }

  // ---------------------------------------------------------------- find

  method FindChar(s: string, c: char, pos: nat) returns (i: nat)
    requires |s| < NPOS
    ensures i == NPOS <==> forall k :: pos <= k < |s| ==> s[k] != c
    ensures i != NPOS ==> pos <= i < |s| && s[i] == c && forall k :: pos <= k < i ==> s[k] != c
  {
    i := pos;
    while i < |s|
      invariant pos <= i && (i <= |s| || i == pos)
      invariant forall k :: pos <= k < i && k < |s| ==> s[k] != c
    {
      if s[i] == c {
        return;
      }
      i := i + 1;
    }
    i := NPOS;
  }

  ghost predicate MatchesAt(s: string, needle: string, i: nat) {
    i + |needle| <= |s| && s[i..i + |needle|] == needle
  }

  /** The least match at or after pos; an empty needle matches at every position up to the end. */
  method Find(s: string, needle: string, pos: nat) returns (i: nat)
    requires |s| < NPOS
    ensures i == NPOS <==> forall k :: pos <= k ==> !MatchesAt(s, needle, k)
    ensures i != NPOS ==> pos <= i && MatchesAt(s, needle, i) && forall k :: pos <= k < i ==> !MatchesAt(s, needle, k)
  {
    if pos > |s| {
      return NPOS;
    }
    if |needle| == 0 {
      assert MatchesAt(s, needle, pos);
      return pos;
    }
    if |needle| > |s| - pos {
      return NPOS;
    }
    i := pos;
    while i + |needle| <= |s|
      invariant pos <= i <= |s| + 1
      invariant forall k :: pos <= k < i ==> !MatchesAt(s, needle, k)
    {
      var match_ := true;
      var j := 0;
      while j < |needle|
        invariant 0 <= j <= |needle| && match_
        invariant forall k :: 0 <= k < j ==> s[i + k] == needle[k]
      {
        if s[i + j] != needle[j] {
          match_ := false;
          assert s[i..i + |needle|][j] != needle[j];
          break;
        }
        j := j + 1;
      }
      if match_ {
        assert MatchesAt(s, needle, i);
        return;
      }
      i := i + 1;
    }
    i := NPOS;
  }

  method Equals(lhs: string, rhs: string) returns (equal: bool)
    ensures equal <==> lhs == rhs
  {
    if |lhs| != |rhs| {
      return false;
    }
    for i := 0 to |lhs|
      invariant lhs[..i] == rhs[..i]
    {
      if lhs[i] != rhs[i] {
        return false;
      }
    }
    assert lhs == lhs[..|lhs|] && rhs == rhs[..|rhs|];
    return true;
  }

  // ---------------------------------------------------------------- split

  /** Every occurrence of `delim` ends a piece; the trailing piece is always there. */
  function Split(s: string, delim: char): (pieces: seq<string>)
    ensures |pieces| > 0
  {
    if s == [] then [[]]
    else if s[0] == delim then [[]] + Split(s[1..], delim)
    else
      var rest := Split(s[1..], delim);
      [[s[0]] + rest[0]] + rest[1..]
  }

  function Join(pieces: seq<string>, delim: char): string
    requires |pieces| > 0
  {
    if |pieces| == 1 then pieces[0] else pieces[0] + [delim] + Join(pieces[1..], delim)
  }

  ghost predicate Free(pieces: seq<string>, delim: char) {
    forall i :: 0 <= i < |pieces| ==> delim !in pieces[i]
  }

  /** Joining the pieces gives the string back, and no piece contains the delimiter. */
  lemma {:induction false} SplitThenJoin(s: string, delim: char)
    ensures Join(Split(s, delim), delim) == s
    ensures Free(Split(s, delim), delim)
  {
    if s != [] {
      SplitThenJoin(s[1..], delim);
      var rest := Split(s[1..], delim);
      var pieces := Split(s, delim);
      assert s == [s[0]] + s[1..];
      if s[0] == delim {
        assert pieces[1..] == rest;
      } else {
        assert pieces[1..] == rest[1..];
        if |rest| > 1 {
          assert Join(pieces, delim) == [s[0]] + (rest[0] + [delim] + Join(rest[1..], delim));
        }
      }
    }
  }

  lemma {:induction false} SplitOfFree(s: string, delim: char)
    requires delim !in s
    ensures Split(s, delim) == [s]
  {
    if s != [] {
      SplitOfFree(s[1..], delim);
      assert s == [s[0]] + s[1..];
    }
  }

  lemma {:induction false} SplitAtFirst(front: string, delim: char, back: string)
    requires delim !in front
    ensures Split(front + [delim] + back, delim) == [front] + Split(back, delim)
  {
    var s := front + [delim] + back;
    if front == [] {
      assert s[1..] == back;
    } else {
      assert s[1..] == front[1..] + [delim] + back;
      SplitAtFirst(front[1..], delim, back);
      assert [s[0]] + front[1..] == front;
    }
  }

  /** The decomposition is the only one: any non-empty list of free pieces is what splitting its join gives. */
  lemma {:induction false} JoinThenSplit(pieces: seq<string>, delim: char)
    requires |pieces| > 0 && Free(pieces, delim)
    ensures Split(Join(pieces, delim), delim) == pieces
  {
    if |pieces| == 1 {
      SplitOfFree(pieces[0], delim);
    } else {
      JoinThenSplit(pieces[1..], delim);
      SplitAtFirst(pieces[0], delim, Join(pieces[1..], delim));
    }
  }

  lemma {:induction false} SplitCounts(s: string, delim: char)
    ensures |Split(s, delim)| == multiset(s)[delim] + 1
  {
    if s != [] {
      SplitCounts(s[1..], delim);
      assert s == [s[0]] + s[1..];
    }
  }

  /** The split loop of the source: cut at each delimiter found from `start`. */
  method SplitByFind(s: string, delim: char) returns (result: seq<string>)
    requires |s| < NPOS
    ensures result == Split(s, delim)
  {
    result := [];
    var start := 0;
    var pos := FindChar(s, delim, start);
    while pos != NPOS
      invariant start <= |s|
      invariant result + Split(s[start..], delim) == Split(s, delim)
      invariant pos == NPOS <==> forall k :: start <= k < |s| ==> s[k] != delim
      invariant pos != NPOS ==> start <= pos < |s| && s[pos] == delim && forall k :: start <= k < pos ==> s[k] != delim
      decreases |s| - start
    {
      assert s[start..] == s[start..pos] + [delim] + s[pos + 1..];
      SplitAtFirst(s[start..pos], delim, s[pos + 1..]);
      Assoc(result, [s[start..pos]], Split(s[pos + 1..], delim));
      result := result + [s[start..pos]];
      start := pos + 1;
      pos := FindChar(s, delim, start);
    }
    SplitOfFree(s[start..], delim);
    result := result + [s[start..]];
  }
}
