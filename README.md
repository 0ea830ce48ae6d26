# emojitranslate data pipeline, in Dafny

A verified model of the data-preparation core of `emojitranslate`. That
core turns short posts, each paired with an emoji label, into one-hot
training tensors for a character-level language model and for a
sequence-to-sequence model. It covers:

- `pad_text`, which truncates or left-pads a post with spaces to a fixed
  length;
- the sliding-window samplers `get_series_data_from_tweet` and
  `get_emoji_and_series_data_from_tweet`;
- the alphabet and label index builders `get_unique_chars_list`,
  `get_emojis_list` and `get_universal_chars_list`;
- the one-hot encoders `get_x_bool_array`, `get_y_bool_array`,
  `get_emoji_bool_array` and the deprecated `get_x_y_bool_arrays`, and the
  debugging decoder `x_y_bool_array_to_sentence`;
- `convert_tweet_to_xy` and the batch generator
  `convert_tweet_to_xy_generator`;
- the text filters `filter_text_for_handles` and `filter_text`;
- the seq2seq generator `xy_generator`, modelled as written: its
  `batch_num` is never advanced and its buffers are never cleared.

Modules, one file each:

| file | module | models |
|---|---|---|
| errors.dfy | Errors | Python exceptions as `Result`/`Option`; `FirstFault` is the exception a loop meets first |
| strings.dfy | Strings | `str.split` and `str.join` on a one-character separator |
| alphabet.dfy | Alphabet | `CHARACTERS`, `sorted(set(...))`, the position maps, the three builders |
| text_filter.dfy | TextFilter | `filter_handles`, `filter_chars`, `filter_text_for_handles` |
| sampling.dfy | Sampling | `pad_text`, the window count, both samplers |
| one_hot.dfy | OneHot | the encoders (nested loops over zeroed arrays) and the decoder |
| batch_generator.dfy | BatchGenerator | `convert_tweet_to_xy` and the class `WindowBatchGenerator` for `convert_tweet_to_xy_generator` |
| seq2seq.dfy | Seq2Seq | `filter_text` and the class `ShiftedBatchGenerator` for `xy_generator` |

How the Python is represented:

- **Exceptions.** An operation that can raise returns `Result`. The
  error value names the exception the Python code raises first:
  - `KeyError` for a symbol missing from an index, carrying the key;
  - `IndexError` for a write outside a numpy array, or for `[0]` of an
    empty list;
  - `ValueError` for `range(..., 0)`, for unzipping an empty table, and
    for a negative array dimension;
  - `AssertionError`;
  - `ZeroDivisionError`.

  Each encoder's contract names the exact exception, not only that one
  occurs.
- **Tables and tensors.** A data table is a `seq<Tweet>`. Tensors are
  `bool` arrays filled in place, as the Python fills zeroed numpy arrays.
- **Generators.** Each generator is a class:
  - its constructor is the generator call, and runs nothing;
  - `Next()` is one `next()` and returns a `Yield`, a `Stop` or a
    `Raise`;
  - the code before the Python loop runs on the first pull, as it does
    in Python.
- **Reshape.** The flattening by `reshape` is the index function
  `FlatInput`/`FlatTarget`: flattened example `k` is window `k % m` of
  row `k / m`.

data_load_seq2seq_utils.py:14 defines a `CHARACTERS` that starts with a
newline, and the comment at data_load_seq2seq_utils.py:38 asks callers to
end each text with one. Both generators nevertheless encode with
`get_universal_chars_list`, which reads data_load_utils.py:12, and that
`CHARACTERS` has no newline. The model follows the code, and
`Seq2Seq.NewlineTerminatedTextFails` proves the consequence: such a text
raises `KeyError`.

## Model

| member | source | states |
|---|---|---|
| Errors.FirstFault | data_load_utils.py:153-155 | a nested loop raises nothing exactly when every step succeeds; otherwise it raises the first failing step's exception |
| Errors.FirstFaultAt | data_load_utils.py:153-155 | if the steps before `k` succeed and step `k` fails, the loop raises step `k`'s exception, whatever the later steps would do |
| Errors.FirstFaultOfPrefix | data_load_utils.py:172-173 | extending a fault-free prefix of a loop by one step raises that step's exception, if any |
| Strings.Split | data_load_utils.py:38-39 | `txt.split(' ')` has at least one piece, and no piece contains the separator |
| Strings.JoinSplit | data_load_utils.py:38-39 | `' '.join(txt.split(' ')) == txt` |
| Strings.SplitJoin | data_load_utils.py:38-39 | splitting the join of separator-free words gives back the words |
| Strings.InJoin | data_load_utils.py:101 | a character of `' '.join(parts)` is the separator between two parts or a character of some part, and conversely |
| Alphabet.LexLessIsOrder | data_load_utils.py:112 | Python's string comparison is a strict total order, so `sorted(set(labels))` is well defined |
| Alphabet.Insert | data_load_utils.py:103 | inserting into an ascending list keeps it ascending and adds exactly the new element |
| Alphabet.SortedUnique | data_load_utils.py:103 | `sorted(list(set(s)))` is strictly ascending and holds exactly the elements of `s` |
| Alphabet.AscendingIsDistinct | data_load_utils.py:103 | a strictly ascending list has no repeats |
| Alphabet.AscendingUnique | data_load_utils.py:103 | two strictly ascending lists with the same elements are equal |
| Alphabet.SortedUniqueDependsOnElements | data_load_utils.py:103 | the builder's list depends only on the set of input symbols, not on their order or repetitions |
| Alphabet.IndexedAscendingUnique | data_load_utils.py:103-105 | two ascending lists with the same elements, and their position maps, are equal |
| Alphabet.IndexOf | data_load_utils.py:105 | `chars.index(c)` is the position of the first occurrence of `c` |
| Alphabet.IndexMap | data_load_utils.py:105 | `dict((c, chars.index(c)) for c in chars)` has exactly the list's symbols as keys, and each maps to a position holding that symbol |
| Alphabet.IndexMapIsIndex | data_load_utils.py:105 | over a repeat-free list the position map is a bijection with `[0, len)`: `idx[chars[k]] == k` and `chars[idx[c]] == c` |
| Alphabet.UniqueCharsList | data_load_utils.py:98-107 | `get_unique_chars_list` returns a strictly ascending list of exactly the characters of the space-joined strings, with its position bijection |
| Alphabet.SpaceWhenJoining | data_load_utils.py:101 | joining two or more strings puts the space into the alphabet |
| Alphabet.EmojisList | data_load_utils.py:110-114 | `get_emojis_list` returns a strictly ascending list of exactly the distinct labels, with its position bijection |
| Alphabet.UniversalCharsList | data_load_utils.py:117-121 | `get_universal_chars_list` returns a strictly ascending list with its position bijection |
| Alphabet.UniversalAlphabetElements | data_load_utils.py:12 | the universal alphabet holds exactly the characters of `CHARACTERS`; the set removes the repeated quotes and `0` |
| Alphabet.UniversalCharsListIsUniversal | data_load_utils.py:117-121 | `get_universal_chars_list()` is the ascending, indexed list of the characters of `CHARACTERS` |
| Alphabet.UniversalAlphabetIsUnique | data_load_utils.py:117-121 | any ascending, indexed list of exactly the characters of `CHARACTERS` is `get_universal_chars_list()` |
| Alphabet.UniversalAlphabet | data_load_utils.py:295 | `chars_univ, char_idx_univ = get_universal_chars_list()` as the generators call it |
| Alphabet.NewlineNotInCharacters | data_load_utils.py:12 | `CHARACTERS` has no newline |
| Alphabet.NewlineNotUniversal | data_load_utils.py:117-121 | the newline is neither in the universal alphabet nor a key of its index |
| TextFilter.DropHandles | data_load_utils.py:38-39 | a word is kept exactly when it is in the input and is not a handle |
| TextFilter.DropHandlesAppend | data_load_utils.py:38-39 | the filter works word by word: filtering `a + b` gives the filtered `a` followed by the filtered `b`, so order is kept |
| TextFilter.DropHandlesKeepsHandleFree | data_load_utils.py:38-39 | a word list with no handle is kept whole |
| TextFilter.FilterChars | data_load_utils.py:41 | a character value appears in the output exactly when it appears in the text and in the alphabet, and the output is no longer than the text |
| TextFilter.FilterCharsAppend | data_load_utils.py:41 | the filter works character by character: filtering `a + b` gives the filtered `a` followed by the filtered `b`, so every occurrence of an alphabet character is kept, in order |
| TextFilter.FilterTextForHandles | data_load_utils.py:33-45 | every output character is in `CHARACTERS`, and no newline survives |
| TextFilter.NoHandlesAfterFilter | data_load_utils.py:38-39 | after the handle filter no space-separated word starts with `@` |
| TextFilter.FilterHandlesKeepsHandleFreeText | data_load_utils.py:38-39 | a post with no `@` word passes the handle filter unchanged |
| TextFilter.FilterCharsIsSubsequence | data_load_utils.py:41 | the character filter's output is an order-preserving subsequence of its input |
| TextFilter.FilterCharsIdempotent | data_load_utils.py:41 | filtering characters twice equals filtering once |
| TextFilter.FilterOutputInAlphabet | data_load_utils.py:33-45 | every filtered character is in the alphabet; with the default alphabet no newline survives |
| TextFilter.FilterCharsKeepsAlphabetText | data_load_utils.py:41 | text made only of alphabet characters is unchanged by the character filter |
| TextFilter.HandleFilterExample | test_data_load_utils.py:9-22 | the test's second post `more @text with handle` filters to `more with handle` |
| Sampling.PadText | data_load_utils.py:48-55 | the result has length exactly `length`: the first `length` characters of a longer post, or `length - len(text)` spaces followed by the post |
| Sampling.WindowsFromCount | data_load_utils.py:68-72 | from offset `start`, the sampler emits as many windows as next characters, namely the integer ceiling of `(len - start - window) / step` |
| Sampling.WindowsCount | data_load_utils.py:68-72 | a post yields `ceil((length - window) / step)` windows and as many next characters, and none when `length <= window` |
| Sampling.WindowsFromAt | data_load_utils.py:68-72 | window `k` from offset `start` is the slice at `start + k * step` of width `window`, and its next character is the one right after it |
| Sampling.WindowAdjacency | data_load_utils.py:68-72 | window `k` has length `window`, and window `k` plus next character `k` equals `pad_text(text, L)[k*S : k*S+W+1]` |
| Sampling.DefaultWindowCount | data_load_utils.py:292 | with the defaults (160, 40, 3) a post yields 40 windows |
| Sampling.SeriesData | data_load_utils.py:58-74 | the loop's `sentences` and `next_chars` are exactly the windows and next characters of the padded post |
| Sampling.EmojiSeriesData | data_load_utils.py:77-95 | the same windows and next characters, and the post's label repeated once per window |
| Sampling.UnpaddedExpectationFails | test_data_load_utils.py:36-37 | for a post shorter than `length` that does not start with a space, window 0 plus its next character differs from the unpadded `text[0:W+1]` |
| Sampling.UnpaddedTestExpectationFails | test_data_load_utils.py:27-37 | for the test's own 119-character post, the comparison at line 37 fails at `i = 0` |
| OneHot.RowFaultFree | data_load_utils.py:153-155 | a window encodes without an exception exactly when each of its characters is indexed, its position fits the tensor and its index fits the depth |
| OneHot.KeyErrorOnFirstMissing | data_load_utils.py:155 | with a proper index, the first character in loop order that the index lacks raises `KeyError` with that character: a missing symbol never defaults |
| OneHot.FillWindow | data_load_utils.py:154-155 | the inner loop raises the window's first fault; otherwise row `i` is one-hot exactly at each character's index, and other rows are untouched |
| OneHot.EncodeWindows | data_load_utils.py:143-158 | `get_x_bool_array` raises exactly the first fault (`IndexError` on an empty list first); otherwise it returns a `(n, len(s[0]), len(chars))` tensor whose cell `(i, p, c)` is set exactly when `index[s[i][p]] == c` |
| OneHot.EncodeSymbols | data_load_utils.py:171-173 | the symbol loop raises exactly the first `KeyError`/`IndexError`; otherwise it returns an `(n, len(index))` tensor whose row `i` is set exactly at `index[x[i]]` |
| OneHot.EncodeNextChars | data_load_utils.py:161-175 | `get_y_bool_array`: as `EncodeSymbols`, over next characters |
| OneHot.EncodeLabels | data_load_utils.py:178-187 | `get_emoji_bool_array`: as `EncodeSymbols`, over labels |
| OneHot.SymbolRowIsOneHot | data_load_utils.py:171-173 | in a fault-free encoding under a proper index, every row has exactly one cell set, at the symbol's index |
| OneHot.FillNextChar | data_load_utils.py:138 | `text_y[i, char_index[next_chars[i]]] = 1` raises `IndexError` past the end of `next_chars` and `KeyError` on an unknown character; otherwise it sets exactly that cell of row `i` |
| OneHot.EncodePairsWith | data_load_utils.py:132-140 | the deprecated loop raises the first fault in the order window `i`, then next character `i`; otherwise both tensors are one-hot as specified, with `len(next_chars) >= len(sentences)` |
| OneHot.EncodePairs | data_load_utils.py:124-140 | `get_x_y_bool_arrays` is that loop over the universal alphabet |
| OneHot.FirstTrue | data_load_utils.py:195 | the first set cell of a row: no earlier cell is set |
| OneHot.ArgMax | data_load_utils.py:195 | `np.argmax` of a 0/1 row is its first set cell, or 0 when none is set |
| OneHot.DecodeRows | data_load_utils.py:197-201 | a successful `decode_line` has one character per row |
| OneHot.DecodeRowsErrPersists | data_load_utils.py:197-201 | once a prefix of the rows fails to decode, the whole line fails with the same exception |
| OneHot.DecodeLine | data_load_utils.py:197-201 | the appending loop computes the line decoding of example `position`, stopping at the first failing row |
| OneHot.DecodeTensors | data_load_utils.py:190-212 | `x_y_bool_array_to_sentence` returns the decoded window, the optional `:` and the decoded next character, or the first exception |
| OneHot.DecodeOneHot | data_load_utils.py:194-195 | decoding the one-hot row of index `k` gives `chars[k]` |
| OneHot.DecodeEncodedRows | data_load_utils.py:197-201 | decoding a window's encoded rows with the same alphabet gives back the window |
| OneHot.EncodeThenDecode | data_load_utils.py:190-212 | encoding windows and next characters, then decoding example `position` with the same alphabet, returns `window + (':' if separator else '') + next_char` |
| BatchGenerator.RowWindows | data_load_utils.py:227-229 | a row yields `WindowCount` windows, each of length `window` |
| BatchGenerator.RowNextChars | data_load_utils.py:227-229 | a row yields `WindowCount` next characters |
| BatchGenerator.SampleRows | data_load_utils.py:227-231 | `apply` then unzip gives each row's windows and next characters, in row order |
| BatchGenerator.SampleLabelledRows | data_load_utils.py:324-331 | the labelled `apply` then unzip gives each row's windows, labels and next characters |
| BatchGenerator.EncodeAllWindows | data_load_utils.py:236 | one input tensor per row, or the first row's exception; each tensor's cells are set exactly at the characters' indices |
| BatchGenerator.EncodeAllSymbols | data_load_utils.py:238 | one target (or label) tensor per row, or the first row's exception |
| BatchGenerator.StoreBlocks4 | data_load_utils.py:254-255 | `x_arr[i] = twit` for each part: rows below the number of parts hold the parts, later rows are unchanged |
| BatchGenerator.StoreBlocks3 | data_load_utils.py:257-258 | `y_arr[i] = nchar` for each part, likewise |
| BatchGenerator.AssembleInputs | data_load_utils.py:240-255 | allocates a zeroed buffer of shape `(rows, m, W, C)` taken from the first row's tensor, and stores every row's input tensor in it: cell `(i, j, p, c)` is set exactly when position `p` of window `j` of row `i` has index `c` |
| BatchGenerator.AssembleTargets | data_load_utils.py:246-258 | allocates a zeroed buffer of shape `(rows, m, C)` and stores every row's target tensor in it: cell `(i, j, c)` is set exactly when next character `j` of row `i` has index `c` |
| BatchGenerator.EncodeBlock | data_load_utils.py:236-238 | the inputs of every row, then the targets of every row; raises exactly the first fault in that order |
| BatchGenerator.EncodeLabelBlock | data_load_utils.py:362 | the label tensors of a block, or its first `KeyError`/`IndexError` |
| BatchGenerator.FlattenBounds | data_load_utils.py:266 | a flattened index below `n * m` names row `k / m < n` and column `k % m < m` |
| BatchGenerator.FlattenIndex | data_load_utils.py:266 | row `i`, column `j` flattens to `i * m + j` and back |
| BatchGenerator.FlatInputCell | data_load_utils.py:266 | flattened input example `k` reads cell `(k / m, k % m)` |
| BatchGenerator.FlatTargetCell | data_load_utils.py:269 | flattened target example `k` reads cell `(k / m, k % m)` |
| BatchGenerator.FlatInputAt | data_load_utils.py:266 | the reshape keeps every input cell: window `j` of row `i` is example `i * m + j` |
| BatchGenerator.FlatTargetAt | data_load_utils.py:269 | the reshape keeps every target cell |
| BatchGenerator.FlatInputCells | data_load_utils.py:266 | in a stored input tensor, flattened example `k` is window `k % m` of row `k / m` |
| BatchGenerator.FlatTargetCells | data_load_utils.py:269 | in a stored target tensor, flattened example `k` is next character `k % m` of row `k / m` |
| BatchGenerator.ConvertWith | data_load_utils.py:225-274 | raises `AssertionError` when `length <= window`, `ValueError` for step 0 or an empty table, and otherwise the first encoding fault; otherwise returns fresh tensors of shapes `(rows*m, W, C)` and `(rows*m, C)` when flattened, with example `k` one-hot on window `k % m` of row `k / m` and on its next character |
| BatchGenerator.ConvertTweetToXY | data_load_utils.py:215-274 | `convert_tweet_to_xy` is that conversion over the universal alphabet |
| BatchGenerator.ModNext | data_load_utils.py:373-374 | `batch_num = (batch_num + 1) % n_batches` keeps `batch_num == pulls % n_batches` |
| BatchGenerator.BatchInRange | data_load_utils.py:321 | every full batch `b < n_batches` lies inside the table |
| BatchGenerator.RowsOfBatches | data_load_utils.py:289 | each row below `n_batches * batch_size` belongs to exactly one batch, `r / batch_size`; trailing rows belong to no batch and are never encoded |
| BatchGenerator.ShortTableHasNoBatch | data_load_utils.py:289 | a table shorter than a batch has `n_batches == 0` |
| BatchGenerator.WindowBatchGenerator.Batch | data_load_utils.py:321 | batch `b` is rows `[b*bs, (b+1)*bs)`, exactly `batch_size` rows |
| BatchGenerator.WindowBatchGenerator.constructor | data_load_utils.py:277-297 | calling the generator runs nothing; it fixes the universal alphabet and `emoji_idx` as `dict((e, emoji_set.index(e)) ...)` |
| BatchGenerator.WindowBatchGenerator.Next | data_load_utils.py:286-376 | first pull: `AssertionError` when `length <= window_size`, `ZeroDivisionError` for `batch_size` or `step` 0, `Stop` when there is no full batch. Inside the loop: it yields exactly when batch `batch_num` encodes, and otherwise raises that batch's first fault. On a yield the buffers hold batch `batch_num`, `batch_num` advances modulo `n_batches`, and later pulls reuse the same buffers. On a later pull whose batch encodes but whose labels fault, the input and target buffers already hold that batch |
| BatchGenerator.WindowBatchGenerator.Start | data_load_utils.py:286-318 | the code before the loop: the assertion, the two divisions, zeroed buffers of the documented shapes, the loop test |
| BatchGenerator.WindowBatchGenerator.PullBatch | data_load_utils.py:318-376 | one pass of the loop body: yields the buffers holding batch `batch_num`, or raises its first fault and finishes; whenever the batch's inputs and targets encode, the buffers hold them, even if its labels then fault |
| BatchGenerator.WindowBatchGenerator.Advance | data_load_utils.py:373-374 | `batch_num` advances modulo `n_batches`, and the generator stays consistent |
| BatchGenerator.WindowBatchGenerator.FillBuffers | data_load_utils.py:321-366 | sampling, encoding and storing batch `b` raises that batch's first fault; otherwise the buffers hold its inputs, targets and (with labels) labels. A fault while encoding inputs or targets leaves the buffers untouched; once they encode, the input and target buffers hold them, even if a label then faults |
| BatchGenerator.WindowBatchGenerator.StoreBatch | data_load_utils.py:345-349 | after the copies `x_arr` and `y_arr` hold batch `b` |
| BatchGenerator.WindowBatchGenerator.StoreLabels | data_load_utils.py:365-366 | after the copy `emoji_arr` holds batch `b`'s labels |
| BatchGenerator.WindowBatchGenerator.PullEveryBatch | data_load_utils.py:318-376 | with no faulty batch, the first `n_batches` pulls all yield, in the same buffers, and leave `batch_num` at 0 |
| BatchGenerator.WindowBatchGenerator.PullRound | data_load_utils.py:373-376 | with no faulty batch, pull `n_batches + 1` yields batch 0 again, in the very buffers pull 1 handed out: they hold batch 0's inputs, targets and (with labels) labels |
| Seq2Seq.FilterText | data_load_seq2seq_utils.py:18-30 | one output per post; every output character is in `chars`; each output is a subsequence of the handle-filtered post |
| Seq2Seq.FilterTextKeepsOrder | data_load_seq2seq_utils.py:26 | the character filter keeps the order of what it keeps |
| Seq2Seq.FilterTextDefault | data_load_seq2seq_utils.py:15 | with its default alphabet `filter_text` equals `filter_text_for_handles` and removes every newline |
| Seq2Seq.NewlineOnlyInSeq2SeqAlphabet | data_load_seq2seq_utils.py:13-15 | the newline is in `CHARACTERS` but not in `CHARACTERS_NO_NEWLINE`, nor in the universal index the generator uses (line 44) |
| Seq2Seq.TextFault | data_load_seq2seq_utils.py:58-62 | a text encodes without an exception exactly when it fits `sequence_length` and all its characters are indexed |
| Seq2Seq.TextFaultFree | data_load_seq2seq_utils.py:58-62 | the same equivalence, for the scan of per-position faults |
| Seq2Seq.NewlineTerminatedTextFails | data_load_seq2seq_utils.py:38-44 | a text ending in the newline the comment asks callers to append cannot be encoded with the universal index |
| Seq2Seq.TextFaultAt | data_load_seq2seq_utils.py:58-59 | the exception a text raises is that of its first bad position |
| Seq2Seq.FillText | data_load_seq2seq_utils.py:58-62 | writing one text raises its first fault. Otherwise row `m` of `x` gains a 1 exactly at each `(i, index[text[i]])`, row `m` of `y` at each `(i-1, index[text[i]])`, and nothing is cleared |
| Seq2Seq.ShiftedBatchGenerator.constructor | data_load_seq2seq_utils.py:33-44 | calling the generator runs nothing; it fixes the universal alphabet |
| Seq2Seq.ShiftedBatchGenerator.Next | data_load_seq2seq_utils.py:33-69 | first pull: `ZeroDivisionError` for `batch_size` 0, `ValueError` for `sequence_length` 0, `Stop` when rows `< batch_size`. Otherwise it yields exactly when the first batch encodes, in buffers that hold that batch's encoding. Every later yield returns the same buffers with the same contents |
| Seq2Seq.ShiftedBatchGenerator.Start | data_load_seq2seq_utils.py:41-52 | the division, the zeroed `(bs, L, C)`, `(bs, L-1, C)` and `(bs, E)` buffers, and the loop test |
| Seq2Seq.ShiftedBatchGenerator.PullBatch | data_load_seq2seq_utils.py:52-69 | one loop pass from zeroed or already-encoded buffers yields exactly when the first batch encodes, and leaves its encoding in the buffers |
| Seq2Seq.ShiftedBatchGenerator.FillBatch | data_load_seq2seq_utils.py:55-64 | the `for m` loop raises the first row's fault (text, then emoji); otherwise the buffers hold exactly rows `0..batch_size-1` |
| Seq2Seq.ShiftedBatchGenerator.YieldedTensors | data_load_seq2seq_utils.py:57-64 | in a yielded batch, `x[m, i]` is one-hot at `text[i]` for `i < len(text)` and zero beyond, `y[m, i] == x[m, i+1]`, and the emoji row is one-hot at its index |

## Left out

- `read_tweet_data` and `filter_tweets_min_count` are not part of this model. They are CSV I/O and a pandas `groupby` filter.
- test_data_load_seq2seq_utils.py is not part of this model. It reads a CSV file and calls a loader that data_load_seq2seq_utils.py does not define.
- pandas and numpy plumbing is modelled by what it computes:
  - a table is a sequence of rows;
  - `apply` and `zip(*...)` are sequence maps and unzips;
  - `np.asarray` is the identity.
- Tensors are `bool` arrays. The Python buffers are float64 zeros holding only 0 and 1.
- Float divisions are modelled as exact integer divisions:
  - `int(ceil((length - window_size) / step))` (data_load_utils.py:292) is the integer ceiling division `WindowCount`;
  - `int(rows / batch_size)` (data_load_utils.py:289, data_load_seq2seq_utils.py:42) is integer division.

  They agree with Python's float arithmetic while the numerators stay below 2**53. Above that, rounding can make Python's count differ: for example, `length - window_size == 2**53 + 1` with step 1 gives 2**53 in Python.
- Negative arguments are not modelled: lengths, window sizes, steps and batch sizes are natural numbers. Python's negative slicing and negative `range` steps have no counterpart.
- Sampling.SeriesData: requires `step > 0`. With step 0 Python's `range` raises `ValueError`; `BatchGenerator.ConvertWith` models that at its call site, and the generator raises `ZeroDivisionError` before sampling.
- Sampling.EmojiSeriesData: requires `step > 0`, for the same reason.
- Reshape aliasing is not modelled beyond this: a yielded tensor is the generator's own buffer, and the next pull overwrites it.
- The deprecation `print` in `get_x_y_bool_arrays`, the Keras training code and the commented-out code are left out.
- The literal expectations of test_data_load_utils.py:37 and :55 are not restated:
  - line 37 compares with the unpadded text (see Findings);
  - line 55 decodes with a corpus alphabet other than the one used to encode. `OneHot.EncodeThenDecode` states the round trip for one shared alphabet.
- BatchGenerator.WindowBatchGenerator.constructor: requires a duplicate-free `emoji_set`. With repeats, `emoji_idx` maps each label to its first position (data_load_utils.py:297), and the label tensors have `len(emoji_idx)` columns (line 183), fewer than the `len(emoji_set)` columns of `emoji_arr` (line 315). Three outcomes follow, and the model describes none of them:
  - a label whose first position is at least `len(emoji_idx)`, as for `['a', 'a', 'b']`, raises `IndexError` at line 185, before any copy;
  - with a single distinct label, as for `['a', 'a']`, the copy at line 366 broadcasts the one column into every column, with no error;
  - otherwise, as for `['a', 'b', 'a']`, the copy at line 366 raises a broadcast `ValueError`.
- BatchGenerator.WindowBatchGenerator.Next: after a label fault, the model does not say what the label buffer holds. The contract states that the input and target buffers already hold the failing batch, for every pull after the first. The generator is finished, but a caller still holding an earlier yield shares these buffers, so it sees the new inputs and targets.
- Seq2Seq.ShiftedBatchGenerator.Next: after an exception partway through the batch, the buffers hold the writes made so far, and the model does not say which. Every pull encodes the same first batch, so an exception can only come on the first pull, before anything was yielded.
- The labelled generator yields `([x, emoji], y)` in Python. Here `Yield` carries the inputs, the targets and the optional labels as three fields.
- Strings are sequences of code points. `£` is one character, as in Python 3.

## Findings

| source | as written | input that shows it | evidently intended | confidence | as-written member | corrected member |
|---|---|---|---|---|---|---|
| test_data_load_utils.py:37 | compares window `i` plus its next character with the unpadded `text[3i : 3i+41]` | the test's own 119-character post starting with `r`, with defaults (160, 40, 3): window 0 is 40 padding spaces, next character a space | compare with `pad_text(text, 160)[3i : 3i+41]` | not executed | Sampling.UnpaddedTestExpectationFails | Sampling.WindowAdjacency |
