/**
 The token frequency table of src/bayesian_spam_classifier.rs as values: what
 training does to the table, the two totals, the per-word rating list and the
 line-by-line dataset load. The class in module Classifier updates its table
 in place and is proved to follow these definitions.

 Tokens come from a word segmenter (`unicode_words`, the word boundaries of
 section 4 of Unicode Standard Annex #29) that is not modelled; every
 definition here that needs it takes it as a parameter `tokenize`.
 */
module TokenTable {
  import opened Utils
  import opened Utf8Split

  datatype Label = Ham | Spam

  /** How often a token was seen in ham and in spam, with smoothing seeds. */
  datatype Counter = Counter(ham: nat, spam: nat)

  /** `token_table`: token -> counter. */
  type Table = map<string, Counter>

  const HAM: string := "ham"
  const SPAM: string := "spam"
  const TAB: char := '\t'
  const INITIAL_RATING: real := 0.5
  const ZEROES_REVERTER: real := 10000.0
  const DATASET_FILE_FORMAT_INVALID: string := "The specified dataset file is in invalid format!"

  function Count(c: Counter, l: Label): nat {
    if l == Ham then c.ham else c.spam
  }

  function Other(l: Label): Label {
    if l == Ham then Spam else Ham
  }

  /** `c` with `n` more observations under label `l`. */
  function Added(c: Counter, l: Label, n: nat): Counter {
    if l == Ham then Counter(c.ham + n, c.spam) else Counter(c.ham, c.spam + n)
  }

  /** The counter inserted for a token first seen under label `l`. */
  function Seed(l: Label): Counter {
    if l == Ham then Counter(2, 1) else Counter(1, 2)
  }

  /** One iteration of the training loop: `entry(word).or_insert(seed)`, then
      `+= 1` on the counter of the label, in the same iteration. */
  function TrainWord(t: Table, w: string, l: Label): Table {
    var c := if w in t then t[w] else Seed(l);
    t[w := Added(c, l, 1)]
  }

  /** The table after training on the tokens `ws` in order. */
  function TrainWords(t: Table, ws: seq<string>, l: Label): Table {
    if ws == [] then t
    else TrainWord(TrainWords(t, ws[..|ws| - 1], l), ws[|ws| - 1], l)
  }

  /** The smoothing invariant: no counter of a present token is zero. */
  ghost predicate Smoothed(t: Table) {
    forall w :: w in t ==> t[w].ham >= 1 && t[w].spam >= 1
  }

  // ---------------------------------------------------------------------
  // Training

  /** Per token, training adds the token's number of occurrences to the
      counter of the label and leaves the other counter alone; a token first
      seen in this message starts from the seed. */
  lemma {:induction false} TrainWordsAt(t: Table, ws: seq<string>, l: Label, w: string)
    ensures w in TrainWords(t, ws, l) <==> w in t || w in ws
    ensures w in t ==> TrainWords(t, ws, l)[w] == Added(t[w], l, multiset(ws)[w])
    ensures w !in t && w in ws ==> TrainWords(t, ws, l)[w] == Added(Seed(l), l, multiset(ws)[w])
    decreases |ws|
  {
    if ws != [] {
      var init, last := ws[..|ws| - 1], ws[|ws| - 1];
      assert ws == init + [last];
      assert multiset(ws) == multiset(init) + multiset{last};
      TrainWordsAt(t, init, l, w);
    }
  }

  /** A token first seen by `train_spam` ends at (ham 1, spam 3), one first
      seen by `train_ham` at (ham 3, spam 1): the seed is bumped at once. */
  lemma FirstObservation(t: Table, w: string)
    requires w !in t
    ensures TrainWords(t, [w], Spam)[w] == Counter(1, 3)
    ensures TrainWords(t, [w], Ham)[w] == Counter(3, 1)
  {
    TrainWordsAt(t, [w], Spam, w);
    TrainWordsAt(t, [w], Ham, w);
  }

  /** Training never removes a token, and every token the message does not
      contain keeps its counter. */
  lemma {:induction false} TrainWordsFrame(t: Table, ws: seq<string>, l: Label)
    ensures t.Keys <= TrainWords(t, ws, l).Keys
    ensures forall w :: w in t && w !in ws ==> TrainWords(t, ws, l)[w] == t[w]
  {
    forall w | w in t
      ensures w in TrainWords(t, ws, l)
      ensures w !in ws ==> TrainWords(t, ws, l)[w] == t[w]
    {
      TrainWordsAt(t, ws, l, w);
    }
  }

  /** Training is not idempotent: training the same message again adds each
      of its tokens' occurrence counts once more. */
  lemma TrainTwiceAccumulates(t: Table, ws: seq<string>, l: Label, w: string)
    requires w in ws
    ensures w in TrainWords(t, ws, l) && w in TrainWords(TrainWords(t, ws, l), ws, l)
    ensures Count(TrainWords(TrainWords(t, ws, l), ws, l)[w], l)
         == Count(TrainWords(t, ws, l)[w], l) + multiset(ws)[w]
    ensures Count(TrainWords(TrainWords(t, ws, l), ws, l)[w], l) > Count(TrainWords(t, ws, l)[w], l)
  {
    TrainWordsAt(t, ws, l, w);
    TrainWordsAt(TrainWords(t, ws, l), ws, l, w);
  }

  /** Training keeps the smoothing invariant. */
  lemma {:induction false} TrainWordsSmoothed(t: Table, ws: seq<string>, l: Label)
    requires Smoothed(t)
    ensures Smoothed(TrainWords(t, ws, l))
    decreases |ws|
  {
    if ws != [] {
      TrainWordsSmoothed(t, ws[..|ws| - 1], l);
    }
  }

  // ---------------------------------------------------------------------
  // Totals over the table

  /** `ham_total_count` / `spam_total_count`: the sum of one counter over all
      entries, taken in no particular order. */
  ghost function Total(t: Table, l: Label): nat
    decreases |t|
  {
    if t == map[] then 0
    else
      var w :| w in t;
      Count(t[w], l) + Total(t - {w}, l)
  }

  /** The sum does not depend on which entry is taken first. */
  lemma {:induction false} TotalRemove(t: Table, w: string, l: Label)
    requires w in t
    ensures Total(t, l) == Count(t[w], l) + Total(t - {w}, l)
    decreases |t|
  {
    var v :| v in t && Total(t, l) == Count(t[v], l) + Total(t - {v}, l);
    if v != w {
      TotalRemove(t - {v}, w, l);
      TotalRemove(t - {w}, v, l);
      assert t - {v} - {w} == t - {w} - {v};
    }
  }

  lemma {:induction false} CountBelowTotal(t: Table, w: string, l: Label)
    requires w in t
    ensures Count(t[w], l) <= Total(t, l)
  {
    TotalRemove(t, w, l);
  }

  /** One training step adds 1 to the label's total and, for a new token, the
      seed's counts: 2 more to the label's total and 1 to the other. */
  lemma TotalTrainWord(t: Table, w: string, l: Label)
    ensures Total(TrainWord(t, w, l), l) == Total(t, l) + (if w in t then 1 else 3)
    ensures Total(TrainWord(t, w, l), Other(l)) == Total(t, Other(l)) + (if w in t then 0 else 1)
  {
    var r := TrainWord(t, w, l);
    assert r - {w} == t - {w};
    TotalRemove(r, w, l);
    TotalRemove(r, w, Other(l));
    if w in t {
      TotalRemove(t, w, l);
      TotalRemove(t, w, Other(l));
    } else {
      assert t - {w} == t;
    }
  }

  /** Training on `ws` grows the label's total by |ws| plus 2 per new token,
      and the other total by 1 per new token. */
  lemma {:induction false} TrainWordsTotals(t: Table, ws: seq<string>, l: Label)
    ensures |t| <= |TrainWords(t, ws, l)|
    ensures Total(TrainWords(t, ws, l), l)
         == Total(t, l) + |ws| + 2 * (|TrainWords(t, ws, l)| - |t|)
    ensures Total(TrainWords(t, ws, l), Other(l))
         == Total(t, Other(l)) + (|TrainWords(t, ws, l)| - |t|)
    decreases |ws|
  {
    if ws != [] {
      var init, last := ws[..|ws| - 1], ws[|ws| - 1];
      TrainWordsTotals(t, init, l);
      var before := TrainWords(t, init, l);
      TotalTrainWord(before, last, l);
      assert |TrainWord(before, last, l)| == |before| + (if last in before then 0 else 1);
    }
  }

  // ---------------------------------------------------------------------
  // Rating the words of a message

  /** A known token's count over the label's total, as an exact ratio. */
  ghost function Ratio(t: Table, w: string, l: Label): real
    requires Smoothed(t) && w in t
  {
    CountBelowTotal(t, w, l);
    Count(t[w], l) as real / Total(t, l) as real
  }

  /** What `rate_words` pushes for one token, as (ham, spam) pairs. */
  ghost function Rate(t: Table, w: string): seq<(real, real)>
    requires Smoothed(t)
  {
    if w in t then [(Ratio(t, w, Ham), Ratio(t, w, Spam)), (ZEROES_REVERTER, ZEROES_REVERTER)]
    else [(INITIAL_RATING, INITIAL_RATING)]
  }

  /** The list `rate_words` returns for the tokens `ws`. */
  ghost function Ratings(t: Table, ws: seq<string>): seq<(real, real)>
    requires Smoothed(t)
  {
    if ws == [] then [] else Ratings(t, ws[..|ws| - 1]) + Rate(t, ws[|ws| - 1])
  }

  /** How many of the tokens `ws` are in the table. */
  function KnownCount(t: Table, ws: seq<string>): nat {
    if ws == [] then 0
    else KnownCount(t, ws[..|ws| - 1]) + (if ws[|ws| - 1] in t then 1 else 0)
  }

  /** The rating list has one entry per unknown token and two per known one. */
  lemma {:induction false} RatingsLength(t: Table, ws: seq<string>)
    requires Smoothed(t)
    ensures |Ratings(t, ws)| == |ws| + KnownCount(t, ws)
    decreases |ws|
  {
    if ws != [] {
      RatingsLength(t, ws[..|ws| - 1]);
    }
  }

  lemma {:induction false} RatingsPrefix(t: Table, ws: seq<string>, j: nat)
    requires Smoothed(t) && j <= |ws|
    ensures Ratings(t, ws[..j]) <= Ratings(t, ws)
    decreases |ws| - j
  {
    if j < |ws| {
      RatingsPrefix(t, ws, j + 1);
      assert ws[..j + 1][..j] == ws[..j];
    } else {
      assert ws[..j] == ws;
    }
  }

  /** Where the entries for the i-th token sit, and what they are: the ratio
      pair followed by the sentinel pair when the token is known, the neutral
      pair otherwise. */
  lemma RatingsAt(t: Table, ws: seq<string>, i: nat)
    requires Smoothed(t) && i < |ws|
    ensures var p := i + KnownCount(t, ws[..i]);
      && p < |Ratings(t, ws)|
      && (ws[i] in t ==>
            && p + 1 < |Ratings(t, ws)|
            && Ratings(t, ws)[p] == (Ratio(t, ws[i], Ham), Ratio(t, ws[i], Spam))
            && Ratings(t, ws)[p + 1] == (ZEROES_REVERTER, ZEROES_REVERTER))
      && (ws[i] !in t ==> Ratings(t, ws)[p] == (INITIAL_RATING, INITIAL_RATING))
  {
    var p := i + KnownCount(t, ws[..i]);
    RatingsPrefix(t, ws, i + 1);
    assert ws[..i + 1][..i] == ws[..i];
    RatingsLength(t, ws[..i]);
    assert Ratings(t, ws[..i + 1]) == Ratings(t, ws[..i]) + Rate(t, ws[i]);
  }

  // ---------------------------------------------------------------------
  // Loading a dataset

  /** One item of `reader.lines()`: a line, or a read error. */
  datatype DatasetLine = Line(text: string) | Unreadable

  /** A line that is read, has a tab, and a non-empty label and message. */
  predicate WellFormed(line: DatasetLine) {
    && line.Line?
    && var split := TakeAndSkip(line.text, TAB);
    && split.Some? && split.value.0 != [] && split.value.1 != []
  }

  /** What one iteration of the dataset loop does with the result of the
      splitter: the format checks, then training by label. */
  function TrainSplit(t: Table, tokenize: string -> seq<string>, split: Option<(string, string)>)
    : Result<Table, SpamClassifierError>
  {
    if split.None? then Err(InvalidDatasetFormatError(DATASET_FILE_FORMAT_INVALID))
    else
      var (category, message) := split.value;
      if category == [] || message == [] then Err(InvalidDatasetFormatError(DATASET_FILE_FORMAT_INVALID))
      else if category == HAM then Ok(TrainWords(t, tokenize(message), Ham))
      else if category == SPAM then Ok(TrainWords(t, tokenize(message), Spam))
      else Ok(t)
  }

  /** One iteration of the dataset loop, on the character-level splitter. */
  function TrainLine(t: Table, tokenize: string -> seq<string>, line: DatasetLine)
    : (r: Result<Table, SpamClassifierError>)
    ensures r.Ok? <==> WellFormed(line)
    ensures line.Unreadable? ==> r == Err(IO)
    ensures line.Line? && !WellFormed(line)
      ==> r == Err(InvalidDatasetFormatError(DATASET_FILE_FORMAT_INVALID))
  {
    match line
    case Unreadable => Err(IO)
    case Line(text) => TrainSplit(t, tokenize, TakeAndSkip(text, TAB))
  }

  /** The dataset loop of `create_model_from_dataset`: the table it leaves and
      the error it stops at, if any. Training from earlier lines is kept. */
  function LoadDataset(t: Table, tokenize: string -> seq<string>, lines: seq<DatasetLine>)
    : (Table, Option<SpamClassifierError>)
    decreases |lines|
  {
    if lines == [] then (t, None)
    else
      match TrainLine(t, tokenize, lines[0])
      case Err(e) => (t, Some(e))
      case Ok(next) => LoadDataset(next, tokenize, lines[1..])
  }

  /** A labelled line trains on everything after its first tab when the label
      is exactly "ham" or "spam", and leaves the table alone otherwise. */
  lemma LabelledLine(t: Table, tokenize: string -> seq<string>, category: string, message: string)
    requires category != [] && TAB !in category && message != []
    ensures TrainLine(t, tokenize, Line(category + [TAB] + message))
         == Ok(if category == HAM then TrainWords(t, tokenize(message), Ham)
               else if category == SPAM then TrainWords(t, tokenize(message), Spam)
               else t)
  {
    TakeAndSkipUnique(category + [TAB] + message, TAB, category, message);
  }

  /** The load succeeds exactly when every line is well formed. */
  lemma {:induction false} LoadDatasetSucceeds(t: Table, tokenize: string -> seq<string>, lines: seq<DatasetLine>)
    ensures LoadDataset(t, tokenize, lines).1.None? <==> forall i :: 0 <= i < |lines| ==> WellFormed(lines[i])
    decreases |lines|
  {
    if lines != [] {
      var r := TrainLine(t, tokenize, lines[0]);
      if r.Ok? {
        LoadDatasetSucceeds(r.value, tokenize, lines[1..]);
        assert forall i :: 1 <= i < |lines| ==> lines[i] == lines[1..][i - 1];
      }
    }
  }

  /** The load stops at the first malformed line with that line's error, and
      keeps the training from the lines before it. */
  lemma {:induction false} LoadDatasetStops(t: Table, tokenize: string -> seq<string>,
                                            good: seq<DatasetLine>, bad: DatasetLine, rest: seq<DatasetLine>)
    requires forall i :: 0 <= i < |good| ==> WellFormed(good[i])
    requires !WellFormed(bad)
    ensures LoadDataset(t, tokenize, good + [bad] + rest)
         == (LoadDataset(t, tokenize, good).0,
             Some(if bad.Unreadable? then IO else InvalidDatasetFormatError(DATASET_FILE_FORMAT_INVALID)))
    decreases |good|
  {
    var lines := good + [bad] + rest;
    if good == [] {
      assert lines[0] == bad;
    } else {
      assert lines[0] == good[0];
      assert lines[1..] == good[1..] + [bad] + rest;
      var next := TrainLine(t, tokenize, good[0]).value;
      LoadDatasetStops(next, tokenize, good[1..], bad, rest);
    }
  }

  /** Loading keeps the smoothing invariant, whether or not it stops early. */
  lemma {:induction false} LoadDatasetSmoothed(t: Table, tokenize: string -> seq<string>, lines: seq<DatasetLine>)
    requires Smoothed(t)
    ensures Smoothed(LoadDataset(t, tokenize, lines).0)
    decreases |lines|
  {
    if lines != [] {
      var r := TrainLine(t, tokenize, lines[0]);
      if r.Ok? {
        var text := lines[0].text;
        var message := TakeAndSkip(text, TAB).value.1;
        TrainWordsSmoothed(t, tokenize(message), Ham);
        TrainWordsSmoothed(t, tokenize(message), Spam);
        LoadDatasetSmoothed(r.value, tokenize, lines[1..]);
      }
    }
  }

  // ---------------------------------------------------------------------
  // The dataset loop on the splitter as written

  /** The label part of a line, the text before its first tab, is ASCII. */
  predicate AsciiLabel(line: DatasetLine) {
    line.Line? ==> forall j :: 0 <= j < |TakeUntil(line.text, TAB).0| ==> IsAscii(line.text[j])
  }

  /** One iteration of the dataset loop with `take_and_skip` as written. */
  function TrainLineAsWritten(t: Table, tokenize: string -> seq<string>, line: DatasetLine)
    : (r: Run<Result<Table, SpamClassifierError>>)
    ensures line.Unreadable? ==> r == Done(Err(IO))
  {
    match line
    case Unreadable => Done(Err(IO))
    case Line(text) =>
      var split := TakeAndSkipAsWritten(text, TAB);
      if split.Panic? then Panic else Done(TrainSplit(t, tokenize, split.value))
  }

  /** The dataset loop as written: it panics at the first line the splitter
      panics on, unless an earlier line has already stopped it. */
  function LoadDatasetAsWritten(t: Table, tokenize: string -> seq<string>, lines: seq<DatasetLine>)
    : Run<(Table, Option<SpamClassifierError>)>
    decreases |lines|
  {
    if lines == [] then Done((t, None))
    else
      match TrainLineAsWritten(t, tokenize, lines[0])
      case Panic => Panic
      case Done(Err(e)) => Done((t, Some(e)))
      case Done(Ok(next)) => LoadDatasetAsWritten(next, tokenize, lines[1..])
  }

  /** A line iteration as written either panics or does what TrainLine does,
      and it does not panic on a line whose label is ASCII. */
  lemma TrainLineAsWrittenAgrees(t: Table, tokenize: string -> seq<string>, line: DatasetLine)
    ensures TrainLineAsWritten(t, tokenize, line).Done?
      ==> TrainLineAsWritten(t, tokenize, line) == Done(TrainLine(t, tokenize, line))
    ensures AsciiLabel(line) ==> TrainLineAsWritten(t, tokenize, line) == Done(TrainLine(t, tokenize, line))
  {
    if line.Line? {
      if TakeAndSkipAsWritten(line.text, TAB).Done? {
        DoneAgrees(line.text, TAB);
      }
      if AsciiLabel(line) {
        AsciiPrefixAgrees(line.text, TAB);
      }
    }
  }

  /** A line with a tab whose label holds a non-ASCII character panics. */
  lemma NonAsciiLabelPanics(t: Table, tokenize: string -> seq<string>,
                            category: string, message: string, j: nat)
    requires TAB !in category && j < |category| && !IsAscii(category[j])
    ensures TrainLineAsWritten(t, tokenize, Line(category + [TAB] + message)) == Panic
  {
    var text := category + [TAB] + message;
    assert text == category + ([TAB] + message);
    NonAsciiPrefixPanics(text, TAB, category, [TAB] + message, j);
  }

  /** When every line has an ASCII label, the dataset loop as written never
      panics and yields what LoadDataset yields. */
  lemma {:induction false} LoadDatasetAsWrittenAgrees(t: Table, tokenize: string -> seq<string>,
                                                      lines: seq<DatasetLine>)
    requires forall i :: 0 <= i < |lines| ==> AsciiLabel(lines[i])
    ensures LoadDatasetAsWritten(t, tokenize, lines) == Done(LoadDataset(t, tokenize, lines))
    decreases |lines|
  {
    if lines != [] {
      TrainLineAsWrittenAgrees(t, tokenize, lines[0]);
      var r := TrainLine(t, tokenize, lines[0]);
      if r.Ok? {
        assert forall i :: 0 <= i < |lines[1..]| ==> lines[1..][i] == lines[i + 1];
        LoadDatasetAsWrittenAgrees(r.value, tokenize, lines[1..]);
      }
    }
  }

  /** Whenever the dataset loop as written runs to completion, its table and
      error are those of LoadDataset. */
  lemma {:induction false} LoadDatasetAsWrittenDone(t: Table, tokenize: string -> seq<string>,
                                                     lines: seq<DatasetLine>)
    requires LoadDatasetAsWritten(t, tokenize, lines).Done?
    ensures LoadDatasetAsWritten(t, tokenize, lines) == Done(LoadDataset(t, tokenize, lines))
    decreases |lines|
  {
    if lines != [] {
      TrainLineAsWrittenAgrees(t, tokenize, lines[0]);
      var r := TrainLine(t, tokenize, lines[0]);
      if r.Ok? {
        LoadDatasetAsWrittenDone(r.value, tokenize, lines[1..]);
      }
    }
  }

  /** The loop as written panics at the first line whose label holds a
      non-ASCII character, when the lines before it are well formed with
      ASCII labels: the training they did is lost with the panic. */
  lemma {:induction false} NonAsciiLabelPanicsLoad(t: Table, tokenize: string -> seq<string>,
                                                   good: seq<DatasetLine>, category: string, message: string,
                                                   j: nat, rest: seq<DatasetLine>)
    requires forall i :: 0 <= i < |good| ==> WellFormed(good[i]) && AsciiLabel(good[i])
    requires TAB !in category && j < |category| && !IsAscii(category[j])
    ensures LoadDatasetAsWritten(t, tokenize, good + [Line(category + [TAB] + message)] + rest) == Panic
    decreases |good|
  {
    var bad := Line(category + [TAB] + message);
    var lines := good + [bad] + rest;
    if good == [] {
      assert lines[0] == bad;
      NonAsciiLabelPanics(t, tokenize, category, message, j);
    } else {
      assert lines[0] == good[0];
      assert lines[1..] == good[1..] + [bad] + rest;
      TrainLineAsWrittenAgrees(t, tokenize, good[0]);
      var next := TrainLine(t, tokenize, good[0]).value;
      NonAsciiLabelPanicsLoad(next, tokenize, good[1..], category, message, j, rest);
    }
  }
}
