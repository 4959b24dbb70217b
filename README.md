# spamclassifier in Dafny

This is a Dafny model of the core of `spamclassifier`, a naive-Bayes spam
classifier written in Rust. The model covers three parts.

- **The dataset line splitter** (`src/utills.rs`). A dataset line is split at its
  first tab into a label and a message. Module `Utils` states the intended
  character-level behaviour. Module `Utf8Split` models the code as written, with
  UTF-8 byte offsets (see Findings).
- **The token frequency table and training** (`src/bayesian_spam_classifier.rs`).
  The table maps each token to a `Counter` of ham and spam observations.
  - Module `TokenTable` defines, as values, what training, the two totals, the
    rating list and the dataset load do to the table, and proves their
    properties.
  - Module `Classifier` holds the class `BayesianSpamClassifier`. Its methods
    update the table in place, and each is proved equal to the `TokenTable`
    definition. The smoothing invariant (every present token has both counts
    at least 1) is kept by every method.
- **The result cache** (`src/cache.rs`). Module `ResultCache` holds the class
  `Cache`, an in-memory map from the hex digest of a message to its pair of
  scores. The map is written through to the single cache file
  `resources/cache.json` on every insert. That file is the object `Disk`: absent,
  written with a map, or unreadable. Failures of file creation, writing and
  removal are boolean parameters.

The word segmenter (`unicode_words`, the word boundaries of section 4 of Unicode
Standard Annex #29) is a parameter `tokenize` of the classifier. SHA-256 (FIPS
180-4) is a parameter `hash` of the cache. The cache key is that digest rendered
by `format!("{:X}")`, and this rendering is modelled.

Details of the code that the model reproduces:

- A new token's seed `(1,2)` / `(2,1)` is incremented in the same iteration that
  inserts it. A token first seen in spam therefore holds `(ham 1, spam 3)`, and
  one first seen in ham holds `(ham 3, spam 1)`.
- On an empty table the scoring code divides 0 by 0 without a guard. Scoring is
  not part of this model (see Left out).
- The code uses the single global path `resources/cache.json`
  (`DEFAULT_CACHE_PATH`), modelled as the one `Disk` object a cache is opened on.
- The dataset loop of the Rust code splits lines with the splitter as written,
  so it panics on a label holding a non-ASCII character. The module `TokenTable`
  defines the loop on the intended splitter (`TrainLine`, `LoadDataset`) and
  proves that the loop as written (`LoadDatasetAsWritten`) agrees with it on
  every dataset whose labels are ASCII.

## Model

| member | source | states |
|---|---|---|
| Utils.SkipNext | src/utills.rs:8-19 | The result is `Some(rest)` exactly when the input is non-empty and starts with the target. Then the input is the target followed by `rest`. |
| Utils.TakeUntil | src/utills.rs:21-29 | The two parts concatenate to the input. The first part holds no target. The second part is empty or starts with the target. |
| Utils.TakeUntilUnique | src/utills.rs:21-29 | Those three properties determine the split: any decomposition that has them is the one returned. |
| Utils.TakeAndSkip | src/utills.rs:31-40 | The result is `None` exactly when the input has no target. Otherwise the input is `a + [target] + b` and `a` holds no target, so the `unwrap` of `skip_next` never fails at the character level. |
| Utils.TakeAndSkipUnique | src/utills.rs:31-40 | The split is at the first target: for `first` without the target, `first + [target] + second` splits into `(first, second)`, and later tabs stay in the message. |
| Utf8Split.SplitAtByte | src/utills.rs:24 | `str::split_at` on a byte offset, `None` standing for its panic. SplitAtByteParts, SplitAtBoundary and SplitAtByteIff characterise it. |
| Utf8Split.SplitAtByteParts | src/utills.rs:24 | A `split_at(i)` that does not panic yields two parts that concatenate to the input, and the first part is exactly `i` bytes long. |
| Utf8Split.CharIndexAtBoundary | src/utills.rs:24 | Counting the bytes of the characters from `k` to `m` reaches character `m` exactly. |
| Utf8Split.SplitAtBoundary | src/utills.rs:24 | A byte offset that is the UTF-8 length of a character prefix never panics, and splits right after that prefix. |
| Utf8Split.SplitAtByteIff | src/utills.rs:24 | `split_at(i)` succeeds exactly when some character prefix is `i` bytes long, so `None` is exactly the panic of `split_at`. |
| Utf8Split.TakeUntilAsWritten | src/utills.rs:21-29 | `take_until` with the character index passed to `split_at`. When it does not panic, its two parts concatenate to the input. |
| Utf8Split.SkipNextAsWritten | src/utills.rs:8-19 | `skip_next` with the byte slice `&input[1..]`. It panics exactly when the input starts with a non-ASCII target. Otherwise it returns what `Utils.SkipNext` returns. |
| Utf8Split.TakeAndSkipAsWritten | src/utills.rs:31-40 | `take_and_skip` as written, including the `unwrap`. A result it returns without panicking is `a + [target] + b` of the input. |
| Utf8Split.DoneAgrees | src/utills.rs:21-40 | Whenever the code as written does not panic, it returns exactly what the character-level splitter returns. |
| Utf8Split.SplitAtAsciiPrefix | src/utills.rs:22-24 | When the first `k` characters are ASCII, byte offset `k` splits at character `k`. |
| Utf8Split.NoTargetAgrees | src/utills.rs:21-35 | A line without the target gives `None` without a panic, as the intended splitter does. |
| Utf8Split.AsciiPrefixAgrees | src/utills.rs:21-40 | With an ASCII target and ASCII text before the first target, the code as written returns exactly what the character-level splitter returns. |
| Utf8Split.MissedTargetPanics | src/utills.rs:37 | If `split_at` lands on a boundary whose next character is not the target, the `unwrap` of `skip_next` panics. |
| Utf8Split.NonAsciiPrefixPanics | src/utills.rs:22-24 | A non-ASCII character before the first target makes the code as written panic, on every such input. |
| Utf8Split.AccentedLabelPanics | src/utills.rs:22-24 | On the line `"é\tham"` the code as written panics, while the intended split is `("é", "ham")`. |
| TokenTable.TrainWordsAt | src/bayesian_spam_classifier.rs:42-56 | After training on a message, a token is present exactly when it was before or occurs in the message. Its label count grows by its number of occurrences and its other count is unchanged. A new token starts from the seed. |
| TokenTable.FirstObservation | src/bayesian_spam_classifier.rs:44-46 | A token first seen in spam becomes `(1, 3)`. One first seen in ham becomes `(3, 1)`. |
| TokenTable.TrainWord | src/bayesian_spam_classifier.rs:43-47 | One loop iteration: `or_insert` of the label's seed, then `+= 1` on the label's count. TotalTrainWord characterises its effect on the totals. |
| TokenTable.TrainWords | src/bayesian_spam_classifier.rs:42-56 | The table after training on the tokens in order. TrainWordsAt, TrainWordsFrame, TrainTwiceAccumulates, TrainWordsSmoothed and TrainWordsTotals characterise it. |
| TokenTable.Total | src/bayesian_spam_classifier.rs:58-64 | The sum of one counter over all entries, taken in no fixed order. TotalRemove proves the order does not matter. |
| TokenTable.TrainWordsFrame | src/bayesian_spam_classifier.rs:43-55 | Training never removes a token, and tokens absent from the message keep their counters. |
| TokenTable.TrainTwiceAccumulates | src/bayesian_spam_classifier.rs:42-56 | Training the same message again adds each token's occurrence count once more, so training is not idempotent. |
| TokenTable.TrainWordsSmoothed | src/bayesian_spam_classifier.rs:44-46 | Training keeps every present token's ham and spam counts at least 1. |
| TokenTable.TotalRemove | src/bayesian_spam_classifier.rs:58-64 | The sum over the table's values does not depend on which entry is taken first. |
| TokenTable.CountBelowTotal | src/bayesian_spam_classifier.rs:58-64 | A token's count never exceeds the label's total, so each ratio is at most 1. |
| TokenTable.TotalTrainWord | src/bayesian_spam_classifier.rs:43-47 | One training step adds 1 to the label's total for a known token. For a new token it adds 3 to the label's total and 1 to the other total. |
| TokenTable.TrainWordsTotals | src/bayesian_spam_classifier.rs:42-64 | Training on `ws` grows the label's total by the number of tokens in `ws` plus 2 per new token, and the other total by 1 per new token. |
| TokenTable.RatingsLength | src/bayesian_spam_classifier.rs:70-81 | The rating list has one entry per unknown token and two per known token. |
| TokenTable.Ratio | src/bayesian_spam_classifier.rs:74-75 | A known token's count over the label's total, as an exact ratio. CountBelowTotal bounds it by 1, and smoothing makes the total positive. |
| TokenTable.Rate | src/bayesian_spam_classifier.rs:71-80 | One iteration of the `rate_words` loop: the ratio pair then `(10000, 10000)` for a known token, `(0.5, 0.5)` for an unknown one. |
| TokenTable.RatingsAt | src/bayesian_spam_classifier.rs:70-81 | The entries for the i-th token come after those of earlier tokens. A known token gets its (ham, spam) ratio pair followed by `(10000, 10000)`. An unknown token gets `(0.5, 0.5)`. |
| TokenTable.Ratings | src/bayesian_spam_classifier.rs:66-84 | The list `rate_words` returns for the tokens. RatingsLength and RatingsAt give its length and its entries. |
| TokenTable.TrainSplit | src/bayesian_spam_classifier.rs:98-112 | What an iteration does with the splitter's result: the format error on `None` or on an empty label or message, then training by label `ham` or `spam`, else no change. TrainLine and TrainLineAsWritten share it. |
| TokenTable.TrainLine | src/bayesian_spam_classifier.rs:90-112 | A line succeeds exactly when it is readable, has a tab, and has a non-empty label and message. An unreadable line gives the I/O error. Any other failure gives the format error with its fixed message. |
| TokenTable.LoadDataset | src/bayesian_spam_classifier.rs:89-113 | The line loop on the intended splitter: the table it leaves and the error it stops at. LoadDatasetSucceeds, LoadDatasetStops and LoadDatasetSmoothed characterise it. |
| TokenTable.LabelledLine | src/bayesian_spam_classifier.rs:108-112 | On the character-level splitter, a line labelled exactly `ham` or `spam` trains on everything after its first tab, and any other label leaves the table unchanged and raises no error. |
| TokenTable.LoadDatasetSucceeds | src/bayesian_spam_classifier.rs:89-113 | On the character-level splitter, the dataset loop ends without error exactly when every line is well formed. |
| TokenTable.LoadDatasetStops | src/bayesian_spam_classifier.rs:89-106 | On the character-level splitter, the loop stops at the first bad line with that line's error, and keeps the training done by the lines before it (no rollback). |
| TokenTable.LoadDatasetSmoothed | src/bayesian_spam_classifier.rs:89-113 | Loading keeps the smoothing invariant, whether or not it stops early. |
| TokenTable.TrainLineAsWritten | src/bayesian_spam_classifier.rs:90-112 | One loop iteration with `take_and_skip` as written. An unreadable line gives the I/O error. |
| TokenTable.TrainLineAsWrittenAgrees | src/bayesian_spam_classifier.rs:97-112 | A line iteration as written either panics or does what TrainLine does, and it never panics on a line whose label is ASCII. |
| TokenTable.NonAsciiLabelPanics | src/bayesian_spam_classifier.rs:97 | A line with a tab whose label holds a non-ASCII character makes that loop iteration as written panic. |
| TokenTable.NonAsciiLabelPanicsLoad | src/bayesian_spam_classifier.rs:89-113 | The whole loop as written panics at such a line when the lines before it are well formed with ASCII labels, so the run ends in a panic instead of a table. |
| TokenTable.LoadDatasetAsWritten | src/bayesian_spam_classifier.rs:89-113 | The line loop as the Rust code runs it: it stops at the first error, or panics at a line the splitter panics on. |
| TokenTable.LoadDatasetAsWrittenAgrees | src/bayesian_spam_classifier.rs:89-113 | When every label is ASCII, the loop as written never panics and yields exactly LoadDataset's table and error. |
| TokenTable.LoadDatasetAsWrittenDone | src/bayesian_spam_classifier.rs:89-113 | Whenever the loop as written runs to completion, its table and error are LoadDataset's. |
| Classifier.BayesianSpamClassifier.constructor | src/bayesian_spam_classifier.rs:29-31 | A new classifier has an empty table, which satisfies the smoothing invariant. |
| Classifier.BayesianSpamClassifier.Train | src/bayesian_spam_classifier.rs:42-56 | The in-place token loop leaves exactly the table that `TrainWords` defines, and keeps the invariant. |
| Classifier.BayesianSpamClassifier.TrainSpam | src/bayesian_spam_classifier.rs:42-48 | The new table is the old one trained on the message's tokens as spam. |
| Classifier.BayesianSpamClassifier.TrainHam | src/bayesian_spam_classifier.rs:50-56 | The new table is the old one trained on the message's tokens as ham. |
| Classifier.BayesianSpamClassifier.TotalCount | src/bayesian_spam_classifier.rs:58-64 | Summing the values in any order gives the order-independent total `Total`. |
| Classifier.BayesianSpamClassifier.SpamTotalCount | src/bayesian_spam_classifier.rs:58-60 | Returns the sum of the spam counts over the table. |
| Classifier.BayesianSpamClassifier.HamTotalCount | src/bayesian_spam_classifier.rs:62-64 | Returns the sum of the ham counts over the table. |
| Classifier.BayesianSpamClassifier.RateWords | src/bayesian_spam_classifier.rs:66-84 | The pushed list is exactly `Ratings` of the message's tokens, whose shape and entries `RatingsLength` and `RatingsAt` state. |
| Classifier.BayesianSpamClassifier.CreateModelFromDataset | src/bayesian_spam_classifier.rs:86-119 | On the character-level splitter, the table ends as `LoadDataset` leaves it, including the partial training before an error. The first line error is returned and no model is written. Otherwise a writer failure gives the serializer error, and success writes the whole table. |
| ResultCache.UpperHex | src/cache.rs:72 | Renders n bytes as 2n upper-case hex digits. |
| ResultCache.UpperHexRoundTrip | src/cache.rs:72 | Reading the hex rendering back yields the original bytes. |
| ResultCache.UpperHexInjective | src/cache.rs:72 | Two byte strings render to the same key exactly when they are equal. |
| ResultCache.Cache.New | src/cache.rs:22-30 | With no file the cache starts empty. A written file whose scores are all finite yields its map. An unreadable file, or one holding a non-finite score (written as `null`), gives an I/O error. |
| ResultCache.Cache.HashString | src/cache.rs:69-73 | The key is 64 upper-case hex digits. |
| ResultCache.Cache.SameKeyIffSameDigest | src/cache.rs:69-73 | Equal messages get the same key, and two messages share a key exactly when their SHA-256 digests are equal. |
| ResultCache.Cache.GetFromCache | src/cache.rs:48-56 | The result is `Some` exactly when the message's key is present, and then it holds the stored scores. It reads the map and changes nothing. |
| ResultCache.Cache.AddToCache | src/cache.rs:32-46 | The map gains or overwrites the message's entry, the lookup then returns the new scores, and every other key is unchanged. The in-memory insert survives a failed create (file untouched, I/O error) and a failed write (file corrupt, serializer error). On success the file holds the whole map. |
| ResultCache.Cache.AddToCacheChecked | src/cache.rs:32-46 | The corrected insert: a non-finite pair changes nothing and returns `Ok`. A finite pair is added exactly as AddToCache adds it. A map of finite scores stays finite, and a file that mirrored the map still mirrors it after a successful insert. |
| ResultCache.Cache.CleanCache | src/cache.rs:58-67 | The in-memory map is never touched. An absent file is a success. Otherwise the file is removed, or an I/O error leaves it in place. |
| ResultCache.ReopenAfterAdd | src/cache.rs:22-46 | Write-through: after a successful insert of finite scores into a map of finite scores, a cache opened from the file holds the same map and serves the inserted scores. |
| ResultCache.ReopenAfterNonFiniteAdd | src/cache.rs:22-46 | As written, inserting a non-finite pair reports success, and the next `Cache::new` fails with an I/O error. |
| ResultCache.ReopenAfterCheckedAdd | src/cache.rs:22-46 | With the corrected insert, a file that mirrors the map keeps mirroring it, and a cache opened afresh after any successful insert holds the in-memory map. |
| ResultCache.ReopenAfterClean | src/cache.rs:22-30 | After a successful clean, a newly opened cache is empty, while the old instance still answers from memory. |

## Left out

- `get_spam_ham_probabilities` (src/bayesian_spam_classifier.rs:121-134) is left out. It is f64 products, priors and sums, and on an empty table it produces NaN from 0/0.
- Classifier.BayesianSpamClassifier.RateWords: the ratios are exact Dafny reals rather than IEEE-754 f64 quotients.
- Classifier.BayesianSpamClassifier.RateWords requires a smoothed table. The program rates words on a table read from a model file, which is taken to be one that `create_model_from_dataset` wrote (LoadDatasetSmoothed shows such a table is smoothed). A hand-made model file with a zero count is not modelled.
- Counters and totals are `nat`. The `u32` overflow of `+= 1` and of `sum()` is not modelled.
- `split_string_into_list_of_words` / `unicode_words` is the `tokenize` parameter. The Unicode segmentation rules themselves are not modelled.
- The SHA-256 computation is the `hash` parameter, assumed deterministic. Only its 32-byte output size and the hex rendering are modelled.
- `new_from_pre_trained` and the serde_json encoding and decoding of the model and of the cache file are not modelled. A model write is the final table, or an abstract serializer failure.
- ResultCache.ReopenAfterAdd: cache scores are finite reals, NaN or an infinity. A written file of finite scores is taken to read back as exactly the map it was written from. serde_json's default float parser does not promise a bit-exact round trip, and that is not modelled. Non-finite scores make the file unreadable (see Findings), so this member requires finite scores.
- TokenTable.TrainLine: this and TrainSplit, LabelledLine, LoadDataset, LoadDatasetSucceeds, LoadDatasetStops, LoadDatasetSmoothed and Classifier.BayesianSpamClassifier.CreateModelFromDataset describe the dataset loop on the corrected, character-level splitter. The loop as written panics on a line whose label holds a non-ASCII character (see Findings). LoadDatasetAsWritten models that loop, and LoadDatasetAsWrittenAgrees proves it agrees on datasets with ASCII labels.
- TokenTable.LoadDatasetSucceeds: describes the corrected splitter. As written, a well-formed dataset still panics when a label holds a non-ASCII character (`"é\tham"`), so "no error" there holds only for datasets with ASCII labels (LoadDatasetAsWrittenAgrees, NonAsciiLabelPanicsLoad).
- TokenTable.LoadDatasetStops: describes the corrected splitter. As written, a well-formed line before the bad one whose label holds a non-ASCII character panics first, so the loop never reaches the bad line (NonAsciiLabelPanicsLoad).
- Classifier.BayesianSpamClassifier.CreateModelFromDataset: describes the corrected splitter. As written, the method panics at the first line whose label holds a non-ASCII character instead of returning; the contract agrees with the code on datasets whose labels are ASCII (LoadDatasetAsWrittenAgrees).
- File system and reader failures are abstract outcomes: an `Unreadable` dataset line, and the `createFails`, `writeFails` and `removeFails` flags. The I/O and serde error values carried by `SpamClassifierError` are dropped, and only the kind is kept.
- `reader.lines()` stripping the line terminators is not modelled. The model's dataset is the already-split sequence of lines.
- Classifier.BayesianSpamClassifier.TotalCount: `values().sum()` is an iterator fold. Dafny cannot enumerate a map inside a function, so the fold is a method that takes the entries in an arbitrary order, proved equal to the ghost sum `Total`.
- src/console.rs (argument parsing, printing, the parallel bulk scoring with rayon) is not part of this model. The bulk path shares the cache across worker threads for lookups only; `add_to_cache` takes `&mut self`, so the borrow checker rules out concurrent inserts. The cache has no lock of its own and no protection against another process writing the file, and neither is modelled.
- The test file (tests/bayesian_spam_classifier_test.rs) reads real files and compares f64 scores. It is not part of this model.

## Findings

| source | as written | input that shows it | evidently intended | confidence | as-written member | corrected member |
|---|---|---|---|---|---|---|
| src/utills.rs:22-24 | `take_until` passes the character index from `chars().enumerate()` to `split_at`, which takes a byte offset. `take_and_skip` then panics, either in `split_at` (not a character boundary) or in the `unwrap` of `skip_next` at line 37 (the split lands before the tab). This happens exactly when the text before the first tab holds a non-ASCII character. | the dataset line `"é\tham"` | split at the first tab by character, giving label `"é"` and message `"ham"` (a line with an unknown label, skipped without error) | not executed | Utf8Split.TakeAndSkipAsWritten, Utf8Split.AccentedLabelPanics | Utils.TakeAndSkip, Utils.TakeAndSkipUnique |
| src/cache.rs:33-45 | `add_to_cache` stores any pair of f64 scores and writes the map with serde_json. serde_json writes NaN and the infinities as `null`, and `Cache::new` (line 25) refuses `null` for an f64. Once a non-finite pair is cached, `Cache::new` returns an I/O error until that entry is overwritten with finite scores or the file is removed. The command-line front end opens the cache before it runs `clean-cache` (src/console.rs:75-83), so from then on every run panics, `clean-cache` included. | `add_to_cache(m, (NaN, NaN))`, the pair an empty model scores (src/bayesian_spam_classifier.rs:124-125), then `Cache::new()` | the cache file always reads back as the map it mirrors; the correction does not cache a non-finite pair, so a later lookup returns the earlier entry for that message, if any | not executed | ResultCache.Cache.AddToCache, ResultCache.ReopenAfterNonFiniteAdd | ResultCache.Cache.AddToCacheChecked, ResultCache.ReopenAfterCheckedAdd |
