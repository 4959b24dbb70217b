/**
 `BayesianSpamClassifier` of src/bayesian_spam_classifier.rs: an object that
 owns the token table and updates it in place. Each method is proved against
 the definitions of module TokenTable.
 */
module Classifier {
  import opened Utils
  import opened TokenTable

  class BayesianSpamClassifier {
    var tokenTable: Table
    /** The word segmenter (`unicode_words`), fixed for the object's lifetime. */
    const tokenize: string -> seq<string>

    ghost predicate Valid()
      reads this
    {
      Smoothed(tokenTable)
    }

    /** `new`: an empty table. */
    constructor (tokenize: string -> seq<string>)
      ensures Valid()
      ensures tokenTable == map[] && this.tokenize == tokenize
    {
      tokenTable := map[];
      this.tokenize := tokenize;
    }

    /** The loop shared by `train_spam` and `train_ham`. */
    method Train(msg: string, l: Label)
      requires Valid()
      modifies this
      ensures Valid()
      ensures tokenTable == TrainWords(old(tokenTable), tokenize(msg), l)
    {
      var words := tokenize(msg);
      var i := 0;
      while i < |words|
        invariant 0 <= i <= |words|
        invariant tokenTable == TrainWords(old(tokenTable), words[..i], l)
      {
        var word := words[i];
        if word !in tokenTable {
          tokenTable := tokenTable[word := Seed(l)];
        }
        var counter := tokenTable[word];
        tokenTable := tokenTable[word := Added(counter, l, 1)];
        assert words[..i + 1][..i] == words[..i];
        i := i + 1;
      }
      assert words[..i] == words;
      TrainWordsSmoothed(old(tokenTable), words, l);
    }

    method TrainSpam(msg: string)
      requires Valid()
      modifies this
      ensures Valid()
      ensures tokenTable == TrainWords(old(tokenTable), tokenize(msg), Spam)
    {
      Train(msg, Spam);
    }

    method TrainHam(msg: string)
      requires Valid()
      modifies this
      ensures Valid()
      ensures tokenTable == TrainWords(old(tokenTable), tokenize(msg), Ham)
    {
      Train(msg, Ham);
    }

    /** The sum of one counter over the table's values. A HashMap is visited in
        no fixed order, so the loop takes the entries in an arbitrary order. */
    method TotalCount(l: Label) returns (n: nat)
      ensures n == Total(tokenTable, l)
    {
      n := 0;
      var rest := tokenTable;
      while rest != map[]
        invariant n + Total(rest, l) == Total(tokenTable, l)
        decreases |rest|
      {
        var w :| w in rest;
        TotalRemove(rest, w, l);
        n := n + Count(rest[w], l);
        rest := rest - {w};
      }
    }

    method SpamTotalCount() returns (n: nat)
      ensures n == Total(tokenTable, Spam)
    {
      n := TotalCount(Spam);
    }

    method HamTotalCount() returns (n: nat)
      ensures n == Total(tokenTable, Ham)
    {
      n := TotalCount(Ham);
    }

    /** `rate_words`, with exact ratios in place of f64 division. */
    method RateWords(msg: string) returns (ratings: seq<(real, real)>)
      requires Valid()
      ensures ratings == Ratings(tokenTable, tokenize(msg))
    {
      var words := tokenize(msg);
      ratings := [];
      var i := 0;
      while i < |words|
        invariant 0 <= i <= |words|
        invariant ratings == Ratings(tokenTable, words[..i])
      {
        var word := words[i];
        if word in tokenTable {
          var counter := tokenTable[word];
          var hamTotal := HamTotalCount();
          var spamTotal := SpamTotalCount();
          CountBelowTotal(tokenTable, word, Ham);
          CountBelowTotal(tokenTable, word, Spam);
          var hamRating := counter.ham as real / hamTotal as real;
          var spamRating := counter.spam as real / spamTotal as real;
          ratings := ratings + [(hamRating, spamRating)];
          ratings := ratings + [(ZEROES_REVERTER, ZEROES_REVERTER)];
        } else {
          ratings := ratings + [(INITIAL_RATING, INITIAL_RATING)];
        }
        assert words[..i + 1][..i] == words[..i];
        i := i + 1;
      }
      assert words[..i] == words;
    }

    /** `create_model_from_dataset`: trains on the lines in order and stops at
        the first unreadable or malformed line, without undoing the training
        already done. On success the whole table is the model written out;
        `writeFails` stands for a failure of the serializer. */
    method CreateModelFromDataset(lines: seq<DatasetLine>, writeFails: bool)
      returns (r: Result<(), SpamClassifierError>, model: Option<Table>)
      requires Valid()
      modifies this
      ensures Valid()
      ensures tokenTable == LoadDataset(old(tokenTable), tokenize, lines).0
      ensures LoadDataset(old(tokenTable), tokenize, lines).1.Some?
        ==> r == Err(LoadDataset(old(tokenTable), tokenize, lines).1.value) && model == None
      ensures LoadDataset(old(tokenTable), tokenize, lines).1.None? && writeFails
        ==> r == Err(Serde) && model == None
      ensures LoadDataset(old(tokenTable), tokenize, lines).1.None? && !writeFails
        ==> r == Ok(()) && model == Some(tokenTable)
    {
      var i := 0;
      while i < |lines|
        invariant 0 <= i <= |lines|
        invariant Valid()
        invariant LoadDataset(tokenTable, tokenize, lines[i..]) == LoadDataset(old(tokenTable), tokenize, lines)
      {
        assert lines[i..][0] == lines[i] && lines[i..][1..] == lines[i + 1..];
        if lines[i].Unreadable? {
          return Err(IO), None;
        }
        var split := TakeAndSkip(lines[i].text, TAB);
        if split.None? {
          return Err(InvalidDatasetFormatError(DATASET_FILE_FORMAT_INVALID)), None;
        }
        var (first, second) := split.value;
        if first == "" || second == "" {
          return Err(InvalidDatasetFormatError(DATASET_FILE_FORMAT_INVALID)), None;
        }
        if first == HAM {
          TrainHam(second);
        } else if first == SPAM {
          TrainSpam(second);
        }
        i := i + 1;
      }
      assert lines[i..] == [];
      if writeFails {
        return Err(Serde), None;
      }
      return Ok(()), Some(tokenTable);
    }
  }
}
