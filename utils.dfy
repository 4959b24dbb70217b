/**
 Shared types and the first-tab line splitter of the spam classifier
 (src/utills.rs), modelled at the level of characters: a dataset line is split
 at its first tab into a label and a message.
 */
module Utils {

  datatype Option<T> = None | Some(value: T)

  datatype Result<T, E> = Ok(value: T) | Err(error: E)

  /** The error kinds the classifier and the cache report. The wrapped
      serde_json and std::io causes are foreign values and are dropped. */
  datatype SpamClassifierError =
    | InvalidDatasetFormatError(message: string)
    | Serde
    | IO

  /** `Some(rest)` exactly when `input` starts with `target`; `rest` is what follows it. */
  function SkipNext(input: string, target: char): (rest: Option<string>)
    ensures rest.Some? <==> |input| > 0 && input[0] == target
    ensures rest.Some? ==> input == [target] + rest.value
  {
    if |input| == 0 then None
    else if input[0] == target then Some(input[1..])
    else None
  }

  /** Splits `input` just before the first occurrence of `target`; when there
      is none, the whole input is the first part and the second is empty. */
  function TakeUntil(input: string, target: char): (parts: (string, string))
    ensures parts.0 + parts.1 == input
    ensures target !in parts.0
    ensures parts.1 == [] || parts.1[0] == target
  {
    if input == [] then ([], [])
    else if input[0] == target then ([], input)
    else
      var (first, second) := TakeUntil(input[1..], target);
      ([input[0]] + first, second)
  }

  /** TakeUntil's three properties determine its result. */
  lemma TakeUntilUnique(input: string, target: char, first: string, second: string)
    requires input == first + second && target !in first
    requires second == [] || second[0] == target
    ensures TakeUntil(input, target) == (first, second)
  {
    var (a, b) := TakeUntil(input, target);
    if second != [] {
      assert input[|first|] == target;
    }
    if b != [] {
      assert input[|a|] == target;
    }
    assert a == input[..|first|];
  }

  /** Splits `input` around its first `target`, dropping that character;
      `None` when `input` holds no `target`. The `value` selection below is the
      source's `unwrap` of `skip_next`, which therefore never fails here. */
  function TakeAndSkip(input: string, target: char): (split: Option<(string, string)>)
    ensures split.None? <==> target !in input
    ensures split.Some? ==> input == split.value.0 + [target] + split.value.1
    ensures split.Some? ==> target !in split.value.0
  {
    var (first, second) := TakeUntil(input, target);
    if second == [] then None
    else
      var rest := SkipNext(second, target);
      Some((first, rest.value))
  }

  /** The split is unique: any decomposition around a first `target` is the one
      TakeAndSkip finds, so later occurrences of `target` stay in the second part. */
  lemma TakeAndSkipUnique(input: string, target: char, first: string, second: string)
    requires input == first + [target] + second
    requires target !in first
    ensures TakeAndSkip(input, target) == Some((first, second))
  {
    assert input[|first|] == target;
    var (a, b) := TakeAndSkip(input, target).value;
    assert input[|a|] == target;
    assert a == input[..|first|] == first;
    assert b == input[|first| + 1..] == second;
  }
}
