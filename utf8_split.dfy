/**
 The first-tab splitter of src/utills.rs as the Rust code is written. A Rust
 `&str` is UTF-8: `chars().enumerate()` yields a CHARACTER index, while
 `split_at` and the slice `&input[1..]` take BYTE offsets and panic when the
 offset is not on a character boundary. This module models those byte offsets
 and shows that the written code agrees with the character-level splitter of
 module Utils exactly when the text before the first tab is ASCII, and panics
 otherwise.
 */
module Utf8Split {
  import opened Utils

  /** The outcome of running Rust code that may panic. */
  datatype Run<T> = Panic | Done(value: T)

  predicate IsAscii(c: char) {
    c as int < 0x80
  }

  /** Number of bytes of the UTF-8 encoding of `c`. */
  function Utf8Width(c: char): (n: nat)
    ensures 1 <= n <= 4
    ensures n == 1 <==> IsAscii(c)
  {
    if c as int < 0x80 then 1
    else if c as int < 0x800 then 2
    else if c as int < 0x1_0000 then 3
    else 4
  }

  /** Number of bytes of the UTF-8 encoding of `s`. */
  function Utf8Len(s: string): nat {
    if s == [] then 0 else Utf8Width(s[0]) + Utf8Len(s[1..])
  }

  lemma {:induction false} Utf8LenAppend(p: string, q: string)
    ensures Utf8Len(p + q) == Utf8Len(p) + Utf8Len(q)
    decreases |p|
  {
    if p == [] {
      assert p + q == q;
    } else {
      assert (p + q)[1..] == p[1..] + q;
      Utf8LenAppend(p[1..], q);
    }
  }

  /** A string takes at least one byte per character, and exactly one per
      character only when every character is ASCII. */
  lemma {:induction false} Utf8LenBound(s: string)
    ensures Utf8Len(s) >= |s|
    ensures Utf8Len(s) == |s| <==> forall j :: 0 <= j < |s| ==> IsAscii(s[j])
    decreases |s|
  {
    if s != [] {
      Utf8LenBound(s[1..]);
      assert forall j :: 1 <= j < |s| ==> s[j] == s[1..][j - 1];
    }
  }

  /** The character index at which a byte offset of `i`, counted from
      character `k` on, ends; `None` when it falls inside a character or past
      the end of `s`. */
  function CharIndexAt(s: string, i: nat, k: nat): (m: Option<nat>)
    requires k <= |s|
    ensures m.Some? ==> k <= m.value <= |s|
    decreases |s| - k
  {
    if i == 0 then Some(k)
    else if k == |s| || Utf8Width(s[k]) > i then None
    else CharIndexAt(s, i - Utf8Width(s[k]), k + 1)
  }

  /** `str::split_at(i)`: `None` stands for the panic when byte offset `i` is
      not a character boundary of `s` (or lies past its end). */
  function SplitAtByte(s: string, i: nat): Option<(string, string)> {
    match CharIndexAt(s, i, 0)
    case None => None
    case Some(k) => Some((s[..k], s[k..]))
  }

  lemma {:induction false} CharIndexAtBytes(s: string, i: nat, k: nat)
    requires k <= |s| && CharIndexAt(s, i, k).Some?
    ensures Utf8Len(s[k..CharIndexAt(s, i, k).value]) == i
    decreases |s| - k
  {
    var m := CharIndexAt(s, i, k).value;
    if i == 0 {
      assert s[k..m] == [];
    } else {
      CharIndexAtBytes(s, i - Utf8Width(s[k]), k + 1);
      assert s[k..m][1..] == s[k + 1..m];
    }
  }

  /** A successful `split_at(i)` cuts `s` into two parts of which the first
      takes exactly `i` bytes. */
  lemma SplitAtByteParts(s: string, i: nat)
    requires SplitAtByte(s, i).Some?
    ensures SplitAtByte(s, i).value.0 + SplitAtByte(s, i).value.1 == s
    ensures Utf8Len(SplitAtByte(s, i).value.0) == i
  {
    CharIndexAtBytes(s, i, 0);
    var k := CharIndexAt(s, i, 0).value;
    assert s[0..k] == s[..k];
  }

  /** Counting bytes from character `k` to any later character `m` reaches
      exactly `m`: every character boundary is a valid byte offset. */
  lemma {:induction false} CharIndexAtBoundary(s: string, k: nat, m: nat)
    requires k <= m <= |s|
    ensures CharIndexAt(s, Utf8Len(s[k..m]), k) == Some(m)
    decreases m - k
  {
    if k < m {
      assert s[k..m][1..] == s[k + 1..m];
      CharIndexAtBoundary(s, k + 1, m);
    } else {
      assert s[k..m] == [];
    }
  }

  /** `split_at` at the byte length of a character prefix never panics, and
      splits after that prefix. */
  lemma SplitAtBoundary(s: string, k: nat)
    requires k <= |s|
    ensures SplitAtByte(s, Utf8Len(s[..k])) == Some((s[..k], s[k..]))
  {
    CharIndexAtBoundary(s, 0, k);
    assert s[0..k] == s[..k];
  }

  /** `split_at(i)` panics exactly when no character prefix of `s` is `i`
      bytes long. */
  lemma SplitAtByteIff(s: string, i: nat)
    ensures SplitAtByte(s, i).Some? <==> exists k :: 0 <= k <= |s| && Utf8Len(s[..k]) == i
  {
    if SplitAtByte(s, i).Some? {
      SplitAtByteParts(s, i);
      var k := |SplitAtByte(s, i).value.0|;
      assert s[..k] == SplitAtByte(s, i).value.0;
    } else {
      forall k | 0 <= k <= |s|
        ensures Utf8Len(s[..k]) != i
      {
        SplitAtBoundary(s, k);
      }
    }
  }

  /** `take_until` as written: the character index of the first `target` is
      passed to `split_at` as a byte offset; `None` stands for a panic. */
  function TakeUntilAsWritten(input: string, target: char): (parts: Option<(string, string)>)
    ensures parts.Some? ==> parts.value.0 + parts.value.1 == input
  {
    var (first, second) := TakeUntil(input, target);
    if second == [] then Some((input, []))
    else SplitAtByte(input, |first|)
  }

  /** `skip_next` as written: `&input[1..]` takes one BYTE, so it panics when
      the first character is the target but is not ASCII. */
  function SkipNextAsWritten(input: string, target: char): (rest: Run<Option<string>>)
    ensures rest == Panic <==> |input| > 0 && input[0] == target && !IsAscii(target)
    ensures rest.Done? ==> rest.value == SkipNext(input, target)
  {
    if |input| == 0 then Done(None)
    else if input[0] == target then
      if Utf8Width(target) == 1 then Done(Some(input[1..])) else Panic
    else Done(None)
  }

  /** `take_and_skip` as written, including the `unwrap` of `skip_next`. */
  function TakeAndSkipAsWritten(input: string, target: char): (split: Run<Option<(string, string)>>)
    ensures split.Done? && split.value.Some?
      ==> input == split.value.value.0 + [target] + split.value.value.1
  {
    var split := TakeUntilAsWritten(input, target);
    if split.None? then Panic
    else if split.value.1 == [] then Done(None)
    else
      var rest := SkipNextAsWritten(split.value.1, target);
      if rest.Done? && rest.value.Some? then Done(Some((split.value.0, rest.value.value)))
      else Panic
  }

  /** Counting bytes over ASCII characters is counting characters. */
  lemma {:induction false} CharIndexAtAscii(s: string, k: nat, m: nat)
    requires k <= m <= |s|
    requires forall j :: k <= j < m ==> IsAscii(s[j])
    ensures CharIndexAt(s, m - k, k) == Some(m)
    decreases m - k
  {
    if k < m {
      CharIndexAtAscii(s, k + 1, m);
    }
  }

  /** Splitting at a byte offset that is the end of an all-ASCII prefix splits
      at the same character index. */
  lemma SplitAtAsciiPrefix(s: string, k: nat)
    requires k <= |s|
    requires forall j :: 0 <= j < k ==> IsAscii(s[j])
    ensures SplitAtByte(s, k) == Some((s[..k], s[k..]))
  {
    CharIndexAtAscii(s, 0, k);
  }

  /** A line without the target never reaches `split_at` and is rejected
      without a panic, whatever its characters. */
  lemma NoTargetAgrees(input: string, target: char)
    requires target !in input
    ensures TakeAndSkipAsWritten(input, target) == Done(None) == Done(TakeAndSkip(input, target))
  {
  }

  /** With an ASCII target and an ASCII text before the first target, the code
      as written does what the character-level splitter does. */
  lemma AsciiPrefixAgrees(input: string, target: char)
    requires IsAscii(target)
    requires forall j :: 0 <= j < |TakeUntil(input, target).0| ==> IsAscii(input[j])
    ensures TakeAndSkipAsWritten(input, target) == Done(TakeAndSkip(input, target))
  {
    var (first, second) := TakeUntil(input, target);
    if second != [] {
      assert input[..|first|] == first && input[|first|..] == second;
      SplitAtAsciiPrefix(input, |first|);
    }
  }

  /** Whenever the code as written does not panic, it returns what the
      character-level splitter returns. */
  lemma DoneAgrees(input: string, target: char)
    requires TakeAndSkipAsWritten(input, target).Done?
    ensures TakeAndSkipAsWritten(input, target) == Done(TakeAndSkip(input, target))
  {
    var first, second := TakeUntil(input, target).0, TakeUntil(input, target).1;
    if second != [] {
      assert TakeUntilAsWritten(input, target) == SplitAtByte(input, |first|);
      SplitAtByteParts(input, |first|);
      var x, y := SplitAtByte(input, |first|).value.0, SplitAtByte(input, |first|).value.1;
      Utf8LenBound(x);
      assert y != [] && y[0] == target;
      assert input[|x|] == target;
      assert x == input[..|x|] && first == input[..|first|];
      assert |x| == |first|;
      assert second == [target] + second[1..];
      TakeAndSkipUnique(input, target, first, second[1..]);
    }
  }

  /** A byte offset equal to the character count of a prefix holding a
      non-ASCII character is reached before the end of that prefix. */
  lemma SplitBeforeNonAscii(s: string, first: string, x: string, j: nat)
    requires first <= s && x <= s
    requires Utf8Len(x) == |first|
    requires j < |first| && !IsAscii(first[j])
    ensures |x| < |first|
  {
    Utf8LenBound(first);
    if |first| <= |x| {
      assert x == first + x[|first|..];
      Utf8LenAppend(first, x[|first|..]);
    }
  }

  /** `split_at` landing on a boundary that is not the target leaves the
      `unwrap` of `skip_next` to fail. */
  lemma MissedTargetPanics(input: string, target: char)
    requires TakeUntilAsWritten(input, target).Some?
    requires var second := TakeUntilAsWritten(input, target).value.1;
      second != [] && second[0] != target
    ensures TakeAndSkipAsWritten(input, target) == Panic
  {
  }

  /** A non-ASCII character in the text `first` before the first target makes
      the code as written panic: either `split_at` lands inside a character,
      or it lands on an earlier boundary and the `unwrap` of `skip_next` fails. */
  lemma NonAsciiPrefixPanics(input: string, target: char, first: string, second: string, j: nat)
    requires input == first + second && target !in first
    requires second != [] && second[0] == target
    requires j < |first| && !IsAscii(first[j])
    ensures TakeAndSkipAsWritten(input, target) == Panic
  {
    TakeUntilUnique(input, target, first, second);
    assert TakeUntilAsWritten(input, target) == SplitAtByte(input, |first|);
    var parts := SplitAtByte(input, |first|);
    if parts.Some? {
      var x, y := parts.value.0, parts.value.1;
      SplitAtByteParts(input, |first|);
      assert first <= input;
      assert x <= input;
      SplitBeforeNonAscii(input, first, x, j);
      assert y != [] && y[0] == first[|x|] != target;
      MissedTargetPanics(input, target);
    }
  }

  /** The discrepancy on a concrete dataset line whose label is "é": the code
      as written panics, where the intended split yields label "é" and message
      "ham". */
  lemma AccentedLabelPanics()
    ensures TakeAndSkipAsWritten("\U{E9}\tham", '\t') == Panic
    ensures TakeAndSkip("\U{E9}\tham", '\t') == Some(("\U{E9}", "ham"))
  {
    var line := "\U{E9}\tham";
    assert line == "\U{E9}" + ['\t'] + "ham";
    TakeAndSkipUnique(line, '\t', "\U{E9}", "ham");
    NonAsciiPrefixPanics(line, '\t', "\U{E9}", "\tham", 0);
  }
}
