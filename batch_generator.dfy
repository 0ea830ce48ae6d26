/** From a table of posts to training tensors: `convert_tweet_to_xy`
    samples every row, one-hot encodes the windows and next characters over
    the universal alphabet, stores them in `(rows, m, W, C)` and
    `(rows, m, C)` tensors and flattens `(row, window)` into one example
    axis; `convert_tweet_to_xy_generator` does the same one batch of rows at
    a time into scratch buffers it overwrites on every pull, cycling
    through the batches forever. */
module BatchGenerator {
  import opened Errors
  import opened Sampling
  import Alphabet
  import opened OneHot

  // ------------------------------------------------------ what is encoded

  /** The windows the sampler draws from one row. */
  function RowWindows(t: Tweet, length: nat, window: nat, step: nat): (ws: seq<string>)
    requires step > 0
    ensures |ws| == WindowCount(length, window, step)
    ensures forall k :: 0 <= k < |ws| ==> |ws[k]| == window
  {
    var padded := PadText(t.text, length);
    WindowsCount(padded, window, step);
    forall k | 0 <= k < WindowCount(length, window, step)
      ensures |Windows(padded, window, step)[k]| == window
    {
      WindowAdjacency(padded, window, step, k);
    }
    Windows(padded, window, step)
  }

  /** The next characters the sampler draws from one row. */
  function RowNextChars(t: Tweet, length: nat, window: nat, step: nat): (cs: seq<char>)
    requires step > 0
    ensures |cs| == WindowCount(length, window, step)
  {
    WindowsCount(PadText(t.text, length), window, step);
    NextChars(PadText(t.text, length), window, step)
  }

  /** The labels the labelled sampler draws from one row: the row's label
      once per window. */
  function RowLabels(t: Tweet, length: nat, window: nat, step: nat): seq<string>
    requires step > 0
  {
    seq(WindowCount(length, window, step), _ => t.emoji)
  }

  function AllWindows(rows: seq<Tweet>, length: nat, window: nat, step: nat): seq<seq<string>>
    requires step > 0
  {
    seq(|rows|, i requires 0 <= i < |rows| => RowWindows(rows[i], length, window, step))
  }

  function AllNextChars(rows: seq<Tweet>, length: nat, window: nat, step: nat): seq<seq<char>>
    requires step > 0
  {
    seq(|rows|, i requires 0 <= i < |rows| => RowNextChars(rows[i], length, window, step))
  }

  function AllLabels(rows: seq<Tweet>, length: nat, window: nat, step: nat): seq<seq<string>>
    requires step > 0
  {
    seq(|rows|, i requires 0 <= i < |rows| => RowLabels(rows[i], length, window, step))
  }

  /** Per row, the exception `get_x_bool_array` raises. */
  function WindowFaults(windows: seq<seq<string>>, depth: nat, index: map<char, nat>): seq<Option<PyError>>
  {
    seq(|windows|, i requires 0 <= i < |windows| => WindowsFault(windows[i], depth, index))
  }

  /** Per row, the exception `get_y_bool_array` or `get_emoji_bool_array` raises. */
  function SymbolListFaults<T(==)>(xss: seq<seq<T>>, keys: T -> string, index: map<T, nat>): seq<Option<PyError>>
  {
    seq(|xss|, i requires 0 <= i < |xss| => FirstFault(SymbolFaults(xss[i], keys, index)))
  }

  /** Encoding a block of rows: every row's inputs first, then every row's
      targets. */
  function EncodeFault(rows: seq<Tweet>, length: nat, window: nat, step: nat, chars: seq<char>, index: map<char, nat>)
    : Option<PyError>
    requires step > 0
  {
    var x := FirstFault(WindowFaults(AllWindows(rows, length, window, step), |chars|, index));
    if x.Some? then x
    else FirstFault(SymbolListFaults(AllNextChars(rows, length, window, step), CharKey, index))
  }

  // ------------------------------------------------------- pipeline steps

  /** `rows.apply(get_series_data_from_tweet)` followed by the unzip. */
  method SampleRows(rows: seq<Tweet>, length: nat, window: nat, step: nat)
    returns (windows: seq<seq<string>>, nexts: seq<seq<char>>)
    requires step > 0
    ensures windows == AllWindows(rows, length, window, step)
    ensures nexts == AllNextChars(rows, length, window, step)
  {
    windows, nexts := [], [];
    var i := 0;
    while i < |rows|
      invariant 0 <= i <= |rows|
      invariant |windows| == |nexts| == i
      invariant forall j :: 0 <= j < i ==> windows[j] == RowWindows(rows[j], length, window, step)
      invariant forall j :: 0 <= j < i ==> nexts[j] == RowNextChars(rows[j], length, window, step)
    {
      var w, n := SeriesData(rows[i], length, window, step);
      windows, nexts := windows + [w], nexts + [n];
      i := i + 1;
    }
  }

  /** `rows.apply(get_emoji_and_series_data_from_tweet)` followed by the unzip. */
  method SampleLabelledRows(rows: seq<Tweet>, length: nat, window: nat, step: nat)
    returns (windows: seq<seq<string>>, labels: seq<seq<string>>, nexts: seq<seq<char>>)
    requires step > 0
    ensures windows == AllWindows(rows, length, window, step)
    ensures labels == AllLabels(rows, length, window, step)
    ensures nexts == AllNextChars(rows, length, window, step)
  {
    windows, labels, nexts := [], [], [];
    var i := 0;
    while i < |rows|
      invariant 0 <= i <= |rows|
      invariant |windows| == |labels| == |nexts| == i
      invariant forall j :: 0 <= j < i ==> windows[j] == RowWindows(rows[j], length, window, step)
      invariant forall j :: 0 <= j < i ==> labels[j] == RowLabels(rows[j], length, window, step)
      invariant forall j :: 0 <= j < i ==> nexts[j] == RowNextChars(rows[j], length, window, step)
    {
      var w, e, n := EmojiSeriesData(rows[i], length, window, step);
      var ls := RowLabels(rows[i], length, window, step);
      assert w == RowWindows(rows[i], length, window, step);
      assert |e| == |ls|;
      assert forall k :: 0 <= k < |e| ==> e[k] == ls[k];
      windows, labels, nexts := windows + [w], labels + [e], nexts + [n];
      i := i + 1;
    }
  }

  /** `pd.Series(x_tuple).apply(get_x_bool_array)`: one input tensor per row. */
  method EncodeAllWindows(windows: seq<seq<string>>, chars: seq<char>, index: map<char, nat>)
    returns (r: Result<seq<array3<bool>>>)
    ensures r.Err? <==> FirstFault(WindowFaults(windows, |chars|, index)).Some?
    ensures r.Err? ==> r.error == FirstFault(WindowFaults(windows, |chars|, index)).value
    ensures r.Ok? ==> |r.value| == |windows|
    ensures r.Ok? ==> forall i :: 0 <= i < |windows| ==> fresh(r.value[i])
    ensures r.Ok? ==>
              forall i :: 0 <= i < |windows| ==>
                && |windows[i]| > 0
                && r.value[i].Length0 == |windows[i]| && r.value[i].Length1 == |windows[i][0]|
                && r.value[i].Length2 == |chars|
                && forall j, p, c :: 0 <= j < r.value[i].Length0 && 0 <= p < r.value[i].Length1 && 0 <= c < r.value[i].Length2 ==>
                     r.value[i][j, p, c] == Hot(windows[i][j], p, c, index)
  {
    var faults := WindowFaults(windows, |chars|, index);
    var parts: seq<array3<bool>> := [];
    var i := 0;
    while i < |windows|
      invariant 0 <= i <= |windows| && |parts| == i
      invariant forall j :: 0 <= j < i ==> faults[j].None?
      invariant forall j :: 0 <= j < i ==> fresh(parts[j])
      invariant forall k :: 0 <= k < i ==>
                  && |windows[k]| > 0
                  && parts[k].Length0 == |windows[k]| && parts[k].Length1 == |windows[k][0]|
                  && parts[k].Length2 == |chars|
                  && forall j, p, c :: 0 <= j < parts[k].Length0 && 0 <= p < parts[k].Length1 && 0 <= c < parts[k].Length2 ==>
                       parts[k][j, p, c] == Hot(windows[k][j], p, c, index)
    {
      var e := EncodeWindows(windows[i], chars, index);
      if e.Err? {
        FirstFaultAt(faults, i);
        return Err(e.error);
      }
      parts := parts + [e.value];
      i := i + 1;
    }
    r := Ok(parts);
  }

  /** `pd.Series(y_tuple).apply(get_y_bool_array)` and its label twin: one
      target tensor per row. */
  method EncodeAllSymbols<T(==)>(xss: seq<seq<T>>, keys: T -> string, index: map<T, nat>)
    returns (r: Result<seq<array2<bool>>>)
    ensures r.Err? <==> FirstFault(SymbolListFaults(xss, keys, index)).Some?
    ensures r.Err? ==> r.error == FirstFault(SymbolListFaults(xss, keys, index)).value
    ensures r.Ok? ==> |r.value| == |xss|
    ensures r.Ok? ==> forall i :: 0 <= i < |xss| ==> fresh(r.value[i])
    ensures r.Ok? ==>
              forall i :: 0 <= i < |xss| ==>
                && r.value[i].Length0 == |xss[i]| && r.value[i].Length1 == |index|
                && forall j, c :: 0 <= j < r.value[i].Length0 && 0 <= c < r.value[i].Length1 ==>
                     r.value[i][j, c] == SymbolHot(xss[i][j], c, index)
  {
    var faults := SymbolListFaults(xss, keys, index);
    var parts: seq<array2<bool>> := [];
    var i := 0;
    while i < |xss|
      invariant 0 <= i <= |xss| && |parts| == i
      invariant forall j :: 0 <= j < i ==> faults[j].None?
      invariant forall j :: 0 <= j < i ==> fresh(parts[j])
      invariant forall k :: 0 <= k < i ==>
                  && parts[k].Length0 == |xss[k]| && parts[k].Length1 == |index|
                  && forall j, c :: 0 <= j < parts[k].Length0 && 0 <= c < parts[k].Length1 ==>
                       parts[k][j, c] == SymbolHot(xss[k][j], c, index)
    {
      var e := EncodeSymbols(xss[i], keys, index);
      if e.Err? {
        FirstFaultAt(faults, i);
        return Err(e.error);
      }
      parts := parts + [e.value];
      i := i + 1;
    }
    r := Ok(parts);
  }

  /** `for i, part in enumerate(parts): dst[i] = part` over a 4-D buffer. */
  method StoreBlocks4(dst: array4<bool>, parts: seq<array3<bool>>)
    requires |parts| <= dst.Length0
    requires forall i :: 0 <= i < |parts| ==>
               parts[i].Length0 == dst.Length1 && parts[i].Length1 == dst.Length2 && parts[i].Length2 == dst.Length3
    modifies dst
    ensures forall i, j, p, c :: 0 <= i < dst.Length0 && 0 <= j < dst.Length1 && 0 <= p < dst.Length2 && 0 <= c < dst.Length3 ==>
              dst[i, j, p, c] == if i < |parts| then parts[i][j, p, c] else old(dst[i, j, p, c])
  {
    var i := 0;
    while i < |parts|
      invariant 0 <= i <= |parts|
      invariant forall k, j, p, c :: 0 <= k < dst.Length0 && 0 <= j < dst.Length1 && 0 <= p < dst.Length2 && 0 <= c < dst.Length3 ==>
                  dst[k, j, p, c] == if k < i then parts[k][j, p, c] else old(dst[k, j, p, c])
    {
      var part := parts[i];
      forall j, p, c | 0 <= j < dst.Length1 && 0 <= p < dst.Length2 && 0 <= c < dst.Length3 {
        dst[i, j, p, c] := part[j, p, c];
      }
      i := i + 1;
    }
  }

  /** `for i, part in enumerate(parts): dst[i] = part` over a 3-D buffer. */
  method StoreBlocks3(dst: array3<bool>, parts: seq<array2<bool>>)
    requires |parts| <= dst.Length0
    requires forall i :: 0 <= i < |parts| ==> parts[i].Length0 == dst.Length1 && parts[i].Length1 == dst.Length2
    modifies dst
    ensures forall i, j, c :: 0 <= i < dst.Length0 && 0 <= j < dst.Length1 && 0 <= c < dst.Length2 ==>
              dst[i, j, c] == if i < |parts| then parts[i][j, c] else old(dst[i, j, c])
  {
    var i := 0;
    while i < |parts|
      invariant 0 <= i <= |parts|
      invariant forall k, j, c :: 0 <= k < dst.Length0 && 0 <= j < dst.Length1 && 0 <= c < dst.Length2 ==>
                  dst[k, j, c] == if k < i then parts[k][j, c] else old(dst[k, j, c])
    {
      var part := parts[i];
      forall j, c | 0 <= j < dst.Length1 && 0 <= c < dst.Length2 {
        dst[i, j, c] := part[j, c];
      }
      i := i + 1;
    }
  }

  /** `parts[i]` is row `i`'s input tensor: `(m, W, C)` cells, set exactly
      where character `p` of window `j` has index `c`. */
  ghost predicate InputBlocks(rows: seq<Tweet>, length: nat, window: nat, step: nat, chars: seq<char>,
                              index: map<char, nat>, parts: seq<array3<bool>>)
    requires step > 0
    reads set i | 0 <= i < |parts| :: parts[i]
  {
    && |parts| == |rows|
    && forall i :: 0 <= i < |parts| ==>
         && parts[i].Length0 == WindowCount(length, window, step) && parts[i].Length1 == window
         && parts[i].Length2 == |chars|
         && forall j, p, c :: 0 <= j < parts[i].Length0 && 0 <= p < parts[i].Length1 && 0 <= c < parts[i].Length2 ==>
              parts[i][j, p, c] == Hot(RowWindows(rows[i], length, window, step)[j], p, c, index)
  }

  /** `parts[i]` is row `i`'s target tensor: `(m, C)` cells, one-hot on the
      character after each window. */
  ghost predicate TargetBlocks(rows: seq<Tweet>, length: nat, window: nat, step: nat,
                               index: map<char, nat>, parts: seq<array2<bool>>)
    requires step > 0
    reads set i | 0 <= i < |parts| :: parts[i]
  {
    && |parts| == |rows|
    && forall i :: 0 <= i < |parts| ==>
         && parts[i].Length0 == WindowCount(length, window, step) && parts[i].Length1 == |index|
         && forall j, c :: 0 <= j < parts[i].Length0 && 0 <= c < parts[i].Length1 ==>
              parts[i][j, c] == SymbolHot(RowNextChars(rows[i], length, window, step)[j], c, index)
  }

  /** `parts[i]` is row `i`'s label tensor: `(m, E)` cells, every line
      one-hot on the row's emoji. */
  ghost predicate LabelBlocks(rows: seq<Tweet>, length: nat, window: nat, step: nat,
                              emojiIndex: map<string, nat>, parts: seq<array2<bool>>)
    requires step > 0
    reads set i | 0 <= i < |parts| :: parts[i]
  {
    && |parts| == |rows|
    && forall i :: 0 <= i < |parts| ==>
         && parts[i].Length0 == WindowCount(length, window, step) && parts[i].Length1 == |emojiIndex|
         && forall j, c :: 0 <= j < parts[i].Length0 && 0 <= c < parts[i].Length1 ==>
              parts[i][j, c] == SymbolHot(rows[i].emoji, c, emojiIndex)
  }

  /** Encoding the sampled windows and next characters of a block of rows:
      the inputs of every row, then the targets of every row. */
  method EncodeBlock(rows: seq<Tweet>, length: nat, window: nat, step: nat, chars: seq<char>, index: map<char, nat>,
                     windows: seq<seq<string>>, nexts: seq<seq<char>>)
    returns (r: Result<(seq<array3<bool>>, seq<array2<bool>>)>)
    requires step > 0
    requires windows == AllWindows(rows, length, window, step)
    requires nexts == AllNextChars(rows, length, window, step)
    ensures r.Err? <==> EncodeFault(rows, length, window, step, chars, index).Some?
    ensures r.Err? ==> r.error == EncodeFault(rows, length, window, step, chars, index).value
    ensures r.Ok? ==> forall i :: 0 <= i < |r.value.0| ==> fresh(r.value.0[i])
    ensures r.Ok? ==> forall i :: 0 <= i < |r.value.1| ==> fresh(r.value.1[i])
    ensures r.Ok? ==> InputBlocks(rows, length, window, step, chars, index, r.value.0)
    ensures r.Ok? ==> TargetBlocks(rows, length, window, step, index, r.value.1)
  {
    var xs := EncodeAllWindows(windows, chars, index);
    if xs.Err? {
      return Err(xs.error);
    }
    var ys := EncodeAllSymbols(nexts, CharKey, index);
    if ys.Err? {
      return Err(ys.error);
    }
    forall i | 0 <= i < |rows|
      ensures xs.value[i].Length0 == WindowCount(length, window, step) && xs.value[i].Length1 == window
      ensures xs.value[i].Length2 == |chars|
      ensures forall j, p, c :: 0 <= j < xs.value[i].Length0 && 0 <= p < xs.value[i].Length1 && 0 <= c < xs.value[i].Length2 ==>
                xs.value[i][j, p, c] == Hot(RowWindows(rows[i], length, window, step)[j], p, c, index)
    {
      assert windows[i] == RowWindows(rows[i], length, window, step);
    }
    forall i | 0 <= i < |rows|
      ensures ys.value[i].Length0 == WindowCount(length, window, step) && ys.value[i].Length1 == |index|
      ensures forall j, c :: 0 <= j < ys.value[i].Length0 && 0 <= c < ys.value[i].Length1 ==>
                ys.value[i][j, c] == SymbolHot(RowNextChars(rows[i], length, window, step)[j], c, index)
    {
      assert nexts[i] == RowNextChars(rows[i], length, window, step);
    }
    r := Ok((xs.value, ys.value));
  }

  /** `pd.Series(emoji_tuple).apply(get_emoji_bool_array)`: the label
      tensors of a block of rows. */
  method EncodeLabelBlock(rows: seq<Tweet>, length: nat, window: nat, step: nat, emojiIndex: map<string, nat>,
                          labels: seq<seq<string>>)
    returns (r: Result<seq<array2<bool>>>)
    requires step > 0
    requires labels == AllLabels(rows, length, window, step)
    ensures r.Err? <==> FirstFault(SymbolListFaults(labels, LabelKey, emojiIndex)).Some?
    ensures r.Err? ==> r.error == FirstFault(SymbolListFaults(labels, LabelKey, emojiIndex)).value
    ensures r.Ok? ==> forall i :: 0 <= i < |r.value| ==> fresh(r.value[i])
    ensures r.Ok? ==> LabelBlocks(rows, length, window, step, emojiIndex, r.value)
  {
    var es := EncodeAllSymbols(labels, LabelKey, emojiIndex);
    if es.Err? {
      return Err(es.error);
    }
    forall i | 0 <= i < |rows|
      ensures es.value[i].Length0 == WindowCount(length, window, step) && es.value[i].Length1 == |emojiIndex|
      ensures forall j, c :: 0 <= j < es.value[i].Length0 && 0 <= c < es.value[i].Length1 ==>
                es.value[i][j, c] == SymbolHot(rows[i].emoji, c, emojiIndex)
    {
      assert labels[i] == RowLabels(rows[i], length, window, step);
    }
    r := Ok(es.value);
  }

  // ----------------------------------------------------------- flattening

  /** The flattened index `k` of an `n` by `m` grid names row `k / m`,
      column `k % m`. */
  lemma FlattenBounds(k: nat, n: nat, m: nat)
    requires k < n * m
    ensures m > 0 && k / m < n && k % m < m
  {
    if m > 0 && k / m >= n {
      MulAtLeastRow(k / m, n, m);
    }
  }

  lemma MulAtLeastRow(a: nat, n: nat, m: nat)
    requires m > 0 && a >= n
    ensures a * m >= n * m
  {
    assert a * m == n * m + (a - n) * m;
  }

  /** Row `i`, column `j` of an `n` by `m` grid is flattened index `i * m + j`. */
  lemma FlattenIndex(i: nat, j: nat, m: nat)
    requires j < m
    ensures (i * m + j) / m == i && (i * m + j) % m == j
  {
    DivBySum(i, m, j);
  }

  /** Example `k` of `x.reshape(n * m, W, C)`. */
  function FlatInput(x: array4<bool>, k: nat, p: nat, c: nat): bool
    requires k < x.Length0 * x.Length1 && p < x.Length2 && c < x.Length3
    reads x
  {
    FlattenBounds(k, x.Length0, x.Length1);
    x[k / x.Length1, k % x.Length1, p, c]
  }

  /** Example `k` of `y.reshape(n * m, C)`. */
  function FlatTarget(y: array3<bool>, k: nat, c: nat): bool
    requires k < y.Length0 * y.Length1 && c < y.Length2
    reads y
  {
    FlattenBounds(k, y.Length0, y.Length1);
    y[k / y.Length1, k % y.Length1, c]
  }

  /** Flattened example `k` is cell `(k / m, k % m)` of the grid. */
  lemma FlatInputCell(x: array4<bool>, k: nat, p: nat, c: nat) returns (i: nat, j: nat)
    requires k < x.Length0 * x.Length1 && p < x.Length2 && c < x.Length3
    ensures i == k / x.Length1 && j == k % x.Length1
    ensures i < x.Length0 && j < x.Length1
    ensures FlatInput(x, k, p, c) == x[i, j, p, c]
  {
    FlattenBounds(k, x.Length0, x.Length1);
    i, j := k / x.Length1, k % x.Length1;
  }

  lemma FlatTargetCell(y: array3<bool>, k: nat, c: nat) returns (i: nat, j: nat)
    requires k < y.Length0 * y.Length1 && c < y.Length2
    ensures i == k / y.Length1 && j == k % y.Length1
    ensures i < y.Length0 && j < y.Length1
    ensures FlatTarget(y, k, c) == y[i, j, c]
  {
    FlattenBounds(k, y.Length0, y.Length1);
    i, j := k / y.Length1, k % y.Length1;
  }

  /** The reshape keeps every cell: window `j` of row `i` is flattened
      example `i * m + j`. */
  lemma FlatInputAt(x: array4<bool>, i: nat, j: nat, p: nat, c: nat)
    requires i < x.Length0 && j < x.Length1 && p < x.Length2 && c < x.Length3
    ensures i * x.Length1 + j < x.Length0 * x.Length1
    ensures FlatInput(x, i * x.Length1 + j, p, c) == x[i, j, p, c]
  {
    FlattenIndex(i, j, x.Length1);
    MulAtLeastRow(x.Length0, i + 1, x.Length1);
  }

  lemma FlatTargetAt(y: array3<bool>, i: nat, j: nat, c: nat)
    requires i < y.Length0 && j < y.Length1 && c < y.Length2
    ensures i * y.Length1 + j < y.Length0 * y.Length1
    ensures FlatTarget(y, i * y.Length1 + j, c) == y[i, j, c]
  {
    FlattenIndex(i, j, y.Length1);
    MulAtLeastRow(y.Length0, i + 1, y.Length1);
  }

  // ---------------------------------------------------- convert_tweet_to_xy

  /** Flattened example `k` of a block of rows: window `k % m` of row
      `k / m`, where `m` is the number of windows per row. */
  function ExampleWindow(rows: seq<Tweet>, length: nat, window: nat, step: nat, k: nat): string
    requires step > 0 && k < |rows| * WindowCount(length, window, step)
  {
    var m := WindowCount(length, window, step);
    FlattenBounds(k, |rows|, m);
    RowWindows(rows[k / m], length, window, step)[k % m]
  }

  /** The next character of flattened example `k`. */
  function ExampleNextChar(rows: seq<Tweet>, length: nat, window: nat, step: nat, k: nat): char
    requires step > 0 && k < |rows| * WindowCount(length, window, step)
  {
    var m := WindowCount(length, window, step);
    FlattenBounds(k, |rows|, m);
    RowNextChars(rows[k / m], length, window, step)[k % m]
  }

  /** The exception `convert_tweet_to_xy` raises, if any, when it encodes
      over `chars` and `index`: its assertion, then a `ValueError` from
      `range` with step 0 or from unzipping an empty table, then the first
      encoding fault. */
  function ConvertFaultWith(rows: seq<Tweet>, length: nat, window: nat, step: nat, chars: seq<char>, index: map<char, nat>)
    : Option<PyError>
  {
    if length <= window then Some(AssertionError)
    else if |rows| == 0 || step == 0 then Some(ValueError)
    else EncodeFault(rows, length, window, step, chars, index)
  }

  /** The exception `convert_tweet_to_xy` raises, if any: it encodes over
      the universal alphabet. */
  function ConvertFault(rows: seq<Tweet>, length: nat, window: nat, step: nat): Option<PyError>
  {
    var (chars, index) := Alphabet.UniversalCharsList();
    ConvertFaultWith(rows, length, window, step, chars, index)
  }

  /** The rows' input tensors, stored in a fresh `(rows, m, W, C)` buffer. */
  method AssembleInputs(rows: seq<Tweet>, length: nat, window: nat, step: nat, chars: seq<char>, index: map<char, nat>,
                        parts: seq<array3<bool>>)
    returns (x: array4<bool>)
    requires step > 0 && |rows| > 0
    requires InputBlocks(rows, length, window, step, chars, index, parts)
    ensures fresh(x)
    ensures x.Length0 == |rows| && x.Length1 == WindowCount(length, window, step) && x.Length2 == window
    ensures x.Length3 == |chars|
    ensures forall i, j, p, c :: 0 <= i < x.Length0 && 0 <= j < x.Length1 && 0 <= p < x.Length2 && 0 <= c < x.Length3 ==>
              x[i, j, p, c] == Hot(RowWindows(rows[i], length, window, step)[j], p, c, index)
  {
    x := new bool[|rows|, parts[0].Length0, parts[0].Length1, parts[0].Length2]((i, j, p, c) => false);
    StoreBlocks4(x, parts);
  }

  /** The rows' target tensors, stored in a fresh `(rows, m, C)` buffer. */
  method AssembleTargets(rows: seq<Tweet>, length: nat, window: nat, step: nat, index: map<char, nat>,
                         parts: seq<array2<bool>>)
    returns (y: array3<bool>)
    requires step > 0 && |rows| > 0
    requires TargetBlocks(rows, length, window, step, index, parts)
    ensures fresh(y)
    ensures y.Length0 == |rows| && y.Length1 == WindowCount(length, window, step) && y.Length2 == |index|
    ensures forall i, j, c :: 0 <= i < y.Length0 && 0 <= j < y.Length1 && 0 <= c < y.Length2 ==>
              y[i, j, c] == SymbolHot(RowNextChars(rows[i], length, window, step)[j], c, index)
  {
    y := new bool[|rows|, parts[0].Length0, parts[0].Length1]((i, j, c) => false);
    StoreBlocks3(y, parts);
  }

  /** The body of `convert_tweet_to_xy` over a given alphabet: the
      `(rows, m, W, C)` input tensor and the `(rows, m, C)` target tensor,
      with `m = WindowCount(length, window, step)`; flattened example `k` is
      window `k % m` of row `k / m`. */
  method ConvertWith(rows: seq<Tweet>, length: nat, window: nat, step: nat, chars: seq<char>, index: map<char, nat>)
    returns (r: Result<(array4<bool>, array3<bool>)>)
    ensures r.Err? <==> ConvertFaultWith(rows, length, window, step, chars, index).Some?
    ensures r.Err? ==> r.error == ConvertFaultWith(rows, length, window, step, chars, index).value
    ensures r.Ok? ==> fresh(r.value.0) && fresh(r.value.1)
    ensures r.Ok? ==>
              && window < length && step > 0
              && r.value.0.Length0 == |rows| && r.value.0.Length1 == WindowCount(length, window, step)
              && r.value.0.Length2 == window && r.value.0.Length3 == |chars|
              && r.value.1.Length0 == |rows| && r.value.1.Length1 == WindowCount(length, window, step)
              && r.value.1.Length2 == |index|
    ensures r.Ok? ==>
              forall k, p, c :: 0 <= k < r.value.0.Length0 * r.value.0.Length1 && 0 <= p < r.value.0.Length2 && 0 <= c < r.value.0.Length3 ==>
                FlatInput(r.value.0, k, p, c) == Hot(ExampleWindow(rows, length, window, step, k), p, c, index)
    ensures r.Ok? ==>
              forall k, c :: 0 <= k < r.value.1.Length0 * r.value.1.Length1 && 0 <= c < r.value.1.Length2 ==>
                FlatTarget(r.value.1, k, c) == SymbolHot(ExampleNextChar(rows, length, window, step, k), c, index)
  {
    if length <= window {
      return Err(AssertionError);
    }
    if |rows| == 0 || step == 0 {
      return Err(ValueError);
    }
    var windows, nexts := SampleRows(rows, length, window, step);
    var xy := EncodeBlock(rows, length, window, step, chars, index, windows, nexts);
    if xy.Err? {
      return Err(xy.error);
    }
    var (xs, ys) := xy.value;
    var x := AssembleInputs(rows, length, window, step, chars, index, xs);
    var y := AssembleTargets(rows, length, window, step, index, ys);
    FlatInputCells(rows, length, window, step, index, x);
    FlatTargetCells(rows, length, window, step, index, y);
    r := Ok((x, y));
  }

  /** `convert_tweet_to_xy`: `ConvertWith` over the universal alphabet. */
  method ConvertTweetToXY(rows: seq<Tweet>, length: nat, window: nat, step: nat)
    returns (r: Result<(array4<bool>, array3<bool>)>)
    ensures r.Err? <==> ConvertFault(rows, length, window, step).Some?
    ensures r.Err? ==> r.error == ConvertFault(rows, length, window, step).value
    ensures r.Ok? ==> fresh(r.value.0) && fresh(r.value.1)
    ensures var (chars, index) := Alphabet.UniversalCharsList();
            r.Ok? ==>
              && window < length && step > 0
              && r.value.0.Length0 == |rows| && r.value.0.Length1 == WindowCount(length, window, step)
              && r.value.0.Length2 == window && r.value.0.Length3 == |chars|
              && r.value.1.Length0 == |rows| && r.value.1.Length1 == WindowCount(length, window, step)
              && r.value.1.Length2 == |index|
    ensures var (chars, index) := Alphabet.UniversalCharsList();
            r.Ok? ==>
              forall k, p, c :: 0 <= k < r.value.0.Length0 * r.value.0.Length1 && 0 <= p < r.value.0.Length2 && 0 <= c < r.value.0.Length3 ==>
                FlatInput(r.value.0, k, p, c) == Hot(ExampleWindow(rows, length, window, step, k), p, c, index)
    ensures var (chars, index) := Alphabet.UniversalCharsList();
            r.Ok? ==>
              forall k, c :: 0 <= k < r.value.1.Length0 * r.value.1.Length1 && 0 <= c < r.value.1.Length2 ==>
                FlatTarget(r.value.1, k, c) == SymbolHot(ExampleNextChar(rows, length, window, step, k), c, index)
  {
    var (chars, index) := Alphabet.UniversalCharsList();
    r := ConvertWith(rows, length, window, step, chars, index);
  }

  /** The flattened cells of a fully stored input tensor. */
  lemma FlatInputCells(rows: seq<Tweet>, length: nat, window: nat, step: nat, index: map<char, nat>, x: array4<bool>)
    requires step > 0
    requires x.Length0 == |rows| && x.Length1 == WindowCount(length, window, step)
    requires forall i, j, p, c :: 0 <= i < x.Length0 && 0 <= j < x.Length1 && 0 <= p < x.Length2 && 0 <= c < x.Length3 ==>
               x[i, j, p, c] == Hot(RowWindows(rows[i], length, window, step)[j], p, c, index)
    ensures forall k, p, c :: 0 <= k < x.Length0 * x.Length1 && 0 <= p < x.Length2 && 0 <= c < x.Length3 ==>
              FlatInput(x, k, p, c) == Hot(ExampleWindow(rows, length, window, step, k), p, c, index)
  {
    forall k, p, c | 0 <= k < x.Length0 * x.Length1 && 0 <= p < x.Length2 && 0 <= c < x.Length3
      ensures FlatInput(x, k, p, c) == Hot(ExampleWindow(rows, length, window, step, k), p, c, index)
    {
      var i, j := FlatInputCell(x, k, p, c);
    }
  }

  /** The flattened cells of a fully stored target tensor. */
  lemma FlatTargetCells(rows: seq<Tweet>, length: nat, window: nat, step: nat, index: map<char, nat>, y: array3<bool>)
    requires step > 0
    requires y.Length0 == |rows| && y.Length1 == WindowCount(length, window, step)
    requires forall i, j, c :: 0 <= i < y.Length0 && 0 <= j < y.Length1 && 0 <= c < y.Length2 ==>
               y[i, j, c] == SymbolHot(RowNextChars(rows[i], length, window, step)[j], c, index)
    ensures forall k, c :: 0 <= k < y.Length0 * y.Length1 && 0 <= c < y.Length2 ==>
              FlatTarget(y, k, c) == SymbolHot(ExampleNextChar(rows, length, window, step, k), c, index)
  {
    forall k, c | 0 <= k < y.Length0 * y.Length1 && 0 <= c < y.Length2
      ensures FlatTarget(y, k, c) == SymbolHot(ExampleNextChar(rows, length, window, step, k), c, index)
    {
      var i, j := FlatTargetCell(y, k, c);
    }
  }

  // ------------------------------------------------------- batch arithmetic

  /** `(q * d + r) % d == r` for a remainder `r` below `d`. */
  lemma ModOfSum(q: int, d: int, r: int)
    requires d > 0 && 0 <= r < d
    ensures (q * d + r) % d == r
  {
    DivBySum(q, d, r);
  }

  /** Counting pulls modulo `n`: the successor of `x % n` is `(x + 1) % n`. */
  lemma ModNext(x: nat, n: nat)
    requires n > 0
    ensures (x % n + 1) % n == (x + 1) % n
  {
    var q, r := x / n, x % n;
    assert x + 1 == q * n + (r + 1);
    if r + 1 < n {
      ModOfSum(q, n, r + 1);
      ModOfSum(0, n, r + 1);
    } else {
      assert x + 1 == (q + 1) * n + 0;
      ModOfSum(q + 1, n, 0);
      ModOfSum(1, n, 0);
    }
  }

  /** Batch `b` lies inside the table, and so do all full batches. */
  lemma BatchInRange(b: nat, batchSize: nat, nRows: nat)
    requires batchSize > 0 && b < nRows / batchSize
    ensures (b + 1) * batchSize <= (nRows / batchSize) * batchSize <= nRows
  {
    MulAtLeastRow(nRows / batchSize, b + 1, batchSize);
  }

  /** Every row below `(nRows / batchSize) * batchSize` belongs to exactly
      one batch, `r / batchSize`; the trailing rows belong to none. */
  lemma RowsOfBatches(r: nat, batchSize: nat, nRows: nat)
    requires batchSize > 0 && r < nRows
    ensures r < (nRows / batchSize) * batchSize ==>
              && r / batchSize < nRows / batchSize
              && (r / batchSize) * batchSize <= r < (r / batchSize + 1) * batchSize
    ensures forall b: nat :: b * batchSize <= r < (b + 1) * batchSize ==> b == r / batchSize
    ensures r >= (nRows / batchSize) * batchSize ==>
              forall b: nat :: b < nRows / batchSize ==> !(b * batchSize <= r < (b + 1) * batchSize)
  {
    var q := r / batchSize;
    assert r == q * batchSize + r % batchSize;
    assert (q + 1) * batchSize == q * batchSize + batchSize;
    if r < (nRows / batchSize) * batchSize {
      FlattenBounds(r, nRows / batchSize, batchSize);
    }
    forall b: nat | b * batchSize <= r < (b + 1) * batchSize
      ensures b == q
    {
      assert (b + 1) * batchSize == b * batchSize + batchSize;
      DivBySum(b, batchSize, r - b * batchSize);
    }
    if r >= (nRows / batchSize) * batchSize {
      forall b: nat | b < nRows / batchSize
        ensures !(b * batchSize <= r < (b + 1) * batchSize)
      {
        BatchInRange(b, batchSize, nRows);
      }
    }
  }

  /** A table with fewer rows than a batch has no full batch. */
  lemma ShortTableHasNoBatch(batchSize: nat, nRows: nat)
    requires nRows < batchSize
    ensures nRows / batchSize == 0
  {
    DivBySum(0, batchSize, nRows);
  }

  // -------------------------------------------- convert_tweet_to_xy_generator

  /** The outcome of one `next()` on a generator: a yielded value, the end
      of iteration, or an exception (after which the generator is done). */
  datatype Pull =
    | Yield(inputs: array4<bool>, targets: array3<bool>, labels: Option<array3<bool>>)
    | Stop
    | Raise(error: PyError)

  /** Not yet started, inside its loop, or finished. */
  datatype Stage = Fresh | Running | Finished

  /** `convert_tweet_to_xy_generator`. The yielded tensors are reshaped
      views of the scratch buffers `xArr`, `yArr` and `emojiArr`, which the
      next pull overwrites; `Yield` therefore hands out the buffers
      themselves, read through `FlatInput` and `FlatTarget`. An empty
      `emojiSet` stands for both `None` and `[]`, which Python treats alike. */
  class WindowBatchGenerator {
    const rows: seq<Tweet>
    const length: nat
    const windowSize: nat
    const step: nat
    const batchSize: nat
    const emojiSet: seq<string>
    const chars: seq<char>
    const index: map<char, nat>
    const emojiIndex: map<string, nat>

    var stage: Stage
    var batchNum: nat
    /** The number of values yielded so far. */
    ghost var pulls: nat
    var xArr: array4<bool>
    var yArr: array3<bool>
    var emojiArr: array3<bool>

    predicate Labelled()
    {
      |emojiSet| > 0
    }

    /** The checks before the loop pass: the assertion and the two divisions. */
    predicate Ready()
    {
      windowSize < length && batchSize > 0 && step > 0
    }

    /** `n_batches`: the number of full batches. */
    function NBatches(): nat
      requires Ready()
    {
      |rows| / batchSize
    }

    /** `m_per_tweet`: examples per row. */
    function PerTweet(): nat
      requires Ready()
    {
      WindowCount(length, windowSize, step)
    }

    /** This pull runs the loop body: the generator is inside its loop, or
        starts now and has a full batch. */
    predicate Pulling(s: Stage)
    {
      s.Running? || (s.Fresh? && Ready() && NBatches() > 0)
    }

    /** Rows `[b * batchSize, (b + 1) * batchSize)` of the table. */
    function Batch(b: nat): (batch: seq<Tweet>)
      requires Ready() && b < NBatches()
      ensures |batch| == batchSize
    {
      BatchInRange(b, batchSize, |rows|);
      rows[b * batchSize..(b + 1) * batchSize]
    }

    /** The exception the loop body raises on batch `b`: inputs, then
        targets, then (with labels) labels. */
    function BatchFault(b: nat): Option<PyError>
      requires Ready() && b < NBatches()
    {
      var xy := EncodeFault(Batch(b), length, windowSize, step, chars, index);
      if xy.Some? || !Labelled() then xy
      else FirstFault(SymbolListFaults(AllLabels(Batch(b), length, windowSize, step), LabelKey, emojiIndex))
    }

    ghost predicate Valid()
      reads this
    {
      && Alphabet.IsIndexOf(index, chars)
      && Alphabet.IsIndexOf(emojiIndex, emojiSet)
      && (stage.Fresh? ==> batchNum == 0 && pulls == 0)
      && (stage.Running? ==>
            && Ready() && NBatches() > 0 && batchNum < NBatches() && batchNum == pulls % NBatches()
            && xArr.Length0 == batchSize && xArr.Length1 == PerTweet()
            && xArr.Length2 == windowSize && xArr.Length3 == |chars|
            && yArr.Length0 == batchSize && yArr.Length1 == PerTweet() && yArr.Length2 == |chars|
            && (Labelled() ==>
                  emojiArr.Length0 == batchSize && emojiArr.Length1 == PerTweet() && emojiArr.Length2 == |emojiSet|)
            && yArr != emojiArr)
    }

    /** The input buffer holds batch `b`: cell `(i, j, p, c)` is set exactly
        when character `p` of window `j` of row `i` has index `c`. */
    ghost predicate HoldsInputs(x: array4<bool>, b: nat)
      requires Ready() && b < NBatches()
      requires x.Length0 == batchSize && x.Length1 == PerTweet()
      reads x
    {
      forall i, j, p, c :: 0 <= i < x.Length0 && 0 <= j < x.Length1 && 0 <= p < x.Length2 && 0 <= c < x.Length3 ==>
        x[i, j, p, c] == Hot(RowWindows(Batch(b)[i], length, windowSize, step)[j], p, c, index)
    }

    /** The target buffer holds batch `b`'s next characters. */
    ghost predicate HoldsTargets(y: array3<bool>, b: nat)
      requires Ready() && b < NBatches()
      requires y.Length0 == batchSize && y.Length1 == PerTweet()
      reads y
    {
      forall i, j, c :: 0 <= i < y.Length0 && 0 <= j < y.Length1 && 0 <= c < y.Length2 ==>
        y[i, j, c] == SymbolHot(RowNextChars(Batch(b)[i], length, windowSize, step)[j], c, index)
    }

    /** The label buffer holds batch `b`'s labels, one per window. */
    ghost predicate HoldsLabels(e: array3<bool>, b: nat)
      requires Ready() && b < NBatches()
      requires e.Length0 == batchSize
      reads e
    {
      forall i, j, c :: 0 <= i < e.Length0 && 0 <= j < e.Length1 && 0 <= c < e.Length2 ==>
        e[i, j, c] == SymbolHot(Batch(b)[i].emoji, c, emojiIndex)
    }

    /** Calling `convert_tweet_to_xy_generator(...)`: nothing runs yet. */
    constructor (rows: seq<Tweet>, length: nat, windowSize: nat, step: nat, batchSize: nat, emojiSet: seq<string>)
      requires Alphabet.Distinct(emojiSet)
      ensures Valid() && stage.Fresh?
      ensures Alphabet.IsUniversalAlphabet(chars, index) && emojiIndex == Alphabet.IndexMap(emojiSet)
      ensures this.rows == rows && this.length == length && this.windowSize == windowSize
      ensures this.step == step && this.batchSize == batchSize && this.emojiSet == emojiSet
    {
      var universalChars, universalIndex := Alphabet.UniversalAlphabet();
      this.rows := rows;
      this.length := length;
      this.windowSize := windowSize;
      this.step := step;
      this.batchSize := batchSize;
      this.emojiSet := emojiSet;
      chars, index := universalChars, universalIndex;
      emojiIndex := Alphabet.IndexMap(emojiSet);
      Alphabet.IndexMapIsIndex(emojiSet);
      stage, batchNum, pulls := Fresh, 0, 0;
      xArr := new bool[0, 0, 0, 0];
      yArr := new bool[0, 0, 0];
      emojiArr := new bool[0, 0, 0];
    }

    /** `next()` on the generator. The first pull runs the checks and
        allocates the zeroed buffers; every pull inside the loop encodes
        batch `batchNum` into the buffers and advances `batchNum` modulo the
        number of batches. */
    method Next() returns (p: Pull)
      requires Valid()
      modifies this, xArr, yArr, emojiArr
      ensures Valid()
      ensures old(stage).Finished? ==> p == Stop && stage.Finished?
      ensures old(stage).Fresh? && length <= windowSize ==> p == Raise(AssertionError) && stage.Finished?
      ensures old(stage).Fresh? && windowSize < length && (batchSize == 0 || step == 0) ==>
                p == Raise(ZeroDivisionError) && stage.Finished?
      ensures old(stage).Fresh? && Ready() && |rows| < batchSize ==> p == Stop && stage.Finished?
      ensures old(stage).Fresh? && Ready() && NBatches() == 0 ==> p == Stop && stage.Finished?
      ensures Pulling(old(stage)) ==> (p.Yield? <==> BatchFault(old(batchNum)).None?)
      ensures Pulling(old(stage)) && p.Raise? ==> p.error == BatchFault(old(batchNum)).value && stage.Finished?
      ensures old(stage).Running? ==> xArr == old(xArr) && yArr == old(yArr) && emojiArr == old(emojiArr)
      ensures old(stage).Fresh? && stage.Running? ==>
                fresh(xArr) && fresh(yArr) && (fresh(emojiArr) || emojiArr == old(emojiArr))
      ensures old(stage).Running? && p.Raise?
                && EncodeFault(Batch(old(batchNum)), length, windowSize, step, chars, index).Some? ==>
                unchanged(old(xArr), old(yArr), old(emojiArr))
      ensures old(stage).Running? && EncodeFault(Batch(old(batchNum)), length, windowSize, step, chars, index).None? ==>
                HoldsInputs(xArr, old(batchNum)) && HoldsTargets(yArr, old(batchNum))
      ensures Pulling(old(stage)) && p.Yield? ==>
                && stage.Running? && pulls == old(pulls) + 1
                && batchNum == (old(batchNum) + 1) % NBatches()
                && p == Yield(xArr, yArr, if Labelled() then Some(emojiArr) else None)
                && HoldsInputs(xArr, old(batchNum)) && HoldsTargets(yArr, old(batchNum))
                && (Labelled() ==> HoldsLabels(emojiArr, old(batchNum)))
    {
      match stage
      case Finished =>
        p := Stop;
      case Running =>
        p := PullBatch();
      case Fresh =>
        p := Start();
        if stage.Running? {
          p := PullBatch();
        }
    }

    /** The code before the loop, run by the first pull: the assertion, the
        two divisions, the zeroed buffers, and the loop test on the first
        batch. On return the generator is either finished with `p` as the
        pull's outcome, or inside its loop on batch 0. */
    method Start() returns (p: Pull)
      requires Valid() && stage.Fresh?
      modifies this
      ensures Valid()
      ensures stage.Running? <==> Ready() && NBatches() > 0
      ensures stage.Running? || stage.Finished?
      ensures batchNum == 0 && pulls == 0
      ensures length <= windowSize ==> p == Raise(AssertionError)
      ensures windowSize < length && (batchSize == 0 || step == 0) ==> p == Raise(ZeroDivisionError)
      ensures Ready() && NBatches() == 0 ==> p == Stop
      ensures Ready() && |rows| < batchSize ==> NBatches() == 0
      ensures stage.Running? ==> fresh(xArr) && fresh(yArr)
      ensures stage.Running? ==> if Labelled() then fresh(emojiArr) else emojiArr == old(emojiArr)
    {
      if length <= windowSize {
        stage := Finished;
        return Raise(AssertionError);
      }
      if batchSize == 0 || step == 0 {
        stage := Finished;
        return Raise(ZeroDivisionError);
      }
      var m := WindowCount(length, windowSize, step);
      xArr := new bool[batchSize, m, windowSize, |chars|]((i, j, p, c) => false);
      yArr := new bool[batchSize, m, |chars|]((i, j, c) => false);
      if Labelled() {
        emojiArr := new bool[batchSize, m, |emojiSet|]((i, j, c) => false);
      }
      if |rows| < batchSize {
        ShortTableHasNoBatch(batchSize, |rows|);
      }
      if NBatches() == 0 {
        stage := Finished;
        return Stop;
      }
      stage := Running;
      p := Stop;
    }

    /** One pass of the generator's loop body, on batch `batchNum`. */
    method PullBatch() returns (p: Pull)
      requires Valid() && stage.Running?
      modifies this, xArr, yArr, emojiArr
      ensures Valid()
      ensures xArr == old(xArr) && yArr == old(yArr) && emojiArr == old(emojiArr)
      ensures p.Yield? <==> BatchFault(old(batchNum)).None?
      ensures p.Raise? ==> p.error == BatchFault(old(batchNum)).value && stage.Finished?
      ensures p.Raise? && EncodeFault(Batch(old(batchNum)), length, windowSize, step, chars, index).Some? ==>
                unchanged(xArr, yArr, emojiArr)
      ensures EncodeFault(Batch(old(batchNum)), length, windowSize, step, chars, index).None? ==>
                HoldsInputs(xArr, old(batchNum)) && HoldsTargets(yArr, old(batchNum))
      ensures p.Yield? ==>
                && stage.Running? && pulls == old(pulls) + 1
                && batchNum == (old(batchNum) + 1) % NBatches()
                && p == Yield(xArr, yArr, if Labelled() then Some(emojiArr) else None)
                && HoldsInputs(xArr, old(batchNum)) && HoldsTargets(yArr, old(batchNum))
                && (Labelled() ==> HoldsLabels(emojiArr, old(batchNum)))
    {
      var b := batchNum;
      var fault := FillBuffers(b);
      if fault.Some? {
        stage := Finished;
        return Raise(fault.value);
      }
      Advance();
      p := Yield(xArr, yArr, if Labelled() then Some(emojiArr) else None);
    }

    /** `batch_num += 1; batch_num = batch_num % n_batches`. */
    method Advance()
      requires Valid() && stage.Running?
      modifies this
      ensures Valid() && stage.Running?
      ensures xArr == old(xArr) && yArr == old(yArr) && emojiArr == old(emojiArr)
      ensures batchNum == (old(batchNum) + 1) % NBatches() && pulls == old(pulls) + 1
    {
      ModNext(pulls, NBatches());
      batchNum := (batchNum + 1) % NBatches();
      pulls := pulls + 1;
    }

    /** Sampling batch `b`, encoding it and copying it into the buffers;
        returns the exception raised on the way, if any. */
    method FillBuffers(b: nat) returns (fault: Option<PyError>)
      requires Valid() && stage.Running? && b < NBatches()
      modifies xArr, yArr, emojiArr
      ensures fault == BatchFault(b)
      ensures EncodeFault(Batch(b), length, windowSize, step, chars, index).Some? ==> unchanged(xArr, yArr, emojiArr)
      ensures EncodeFault(Batch(b), length, windowSize, step, chars, index).None? ==>
                HoldsInputs(xArr, b) && HoldsTargets(yArr, b)
      ensures fault.None? ==>
                && HoldsInputs(xArr, b) && HoldsTargets(yArr, b)
                && (Labelled() ==> HoldsLabels(emojiArr, b))
    {
      var batch := Batch(b);
      var windows, labels, nexts;
      if Labelled() {
        windows, labels, nexts := SampleLabelledRows(batch, length, windowSize, step);
      } else {
        windows, nexts := SampleRows(batch, length, windowSize, step);
      }
      var xy := EncodeBlock(batch, length, windowSize, step, chars, index, windows, nexts);
      if xy.Err? {
        return Some(xy.error);
      }
      StoreBatch(b, xy.value.0, xy.value.1);
      if Labelled() {
        var es := EncodeLabelBlock(batch, length, windowSize, step, emojiIndex, labels);
        if es.Err? {
          return Some(es.error);
        }
        StoreLabels(b, es.value);
      }
      fault := None;
    }

    /** `x_arr[i] = twit` and `y_arr[i] = nchar` for every row of batch `b`. */
    method StoreBatch(b: nat, xs: seq<array3<bool>>, ys: seq<array2<bool>>)
      requires Valid() && stage.Running? && b < NBatches()
      requires InputBlocks(Batch(b), length, windowSize, step, chars, index, xs)
      requires TargetBlocks(Batch(b), length, windowSize, step, index, ys)
      modifies xArr, yArr
      ensures HoldsInputs(xArr, b) && HoldsTargets(yArr, b)
    {
      StoreBlocks4(xArr, xs);
      StoreBlocks3(yArr, ys);
    }

    /** `emoji_arr[i] = emoj` for every row of batch `b`. */
    method StoreLabels(b: nat, es: seq<array2<bool>>)
      requires Valid() && stage.Running? && Labelled() && b < NBatches()
      requires LabelBlocks(Batch(b), length, windowSize, step, emojiIndex, es)
      modifies emojiArr
      ensures HoldsLabels(emojiArr, b)
    {
      StoreBlocks3(emojiArr, es);
    }

    /** `batch_num = batch_num % n_batches`: with every batch free of
        faults, the pull after a full round yields batch 0 again, in the
        very buffers the first pull handed out, which in between held every
        other batch. */
    method PullRound() returns (first: Pull, again: Pull)
      requires Valid() && stage.Fresh? && Ready() && NBatches() > 0
      requires forall b :: 0 <= b < NBatches() ==> BatchFault(b).None?
      modifies this, xArr, yArr, emojiArr
      ensures Valid() && stage.Running?
      ensures first.Yield? && again.Yield?
      ensures again.inputs == first.inputs && again.targets == first.targets && again.labels == first.labels
      ensures first.inputs == xArr && first.targets == yArr
      ensures HoldsInputs(xArr, 0) && HoldsTargets(yArr, 0)
      ensures Labelled() ==> first.labels == Some(emojiArr) && HoldsLabels(emojiArr, 0)
      ensures batchNum == 1 % NBatches() && pulls == NBatches() + 1
    {
      first := PullEveryBatch();
      again := Next();
      assert HoldsInputs(xArr, 0) && HoldsTargets(yArr, 0);
    }

    /** The first `n_batches` pulls from a fresh generator all yield, in the
        same buffers, and leave `batch_num` back at 0. */
    method PullEveryBatch() returns (first: Pull)
      requires Valid() && stage.Fresh? && Ready() && NBatches() > 0
      requires forall b :: 0 <= b < NBatches() ==> BatchFault(b).None?
      modifies this, xArr, yArr, emojiArr
      ensures Valid() && stage.Running?
      ensures batchNum == 0 && pulls == NBatches()
      ensures first == Yield(xArr, yArr, if Labelled() then Some(emojiArr) else None)
      ensures fresh(xArr) && fresh(yArr) && (fresh(emojiArr) || emojiArr == old(emojiArr))
    {
      first := Next();
      var k := 1;
      while k < NBatches()
        invariant Valid() && stage.Running?
        invariant 1 <= k <= NBatches() && pulls == k && batchNum == k % NBatches()
        invariant first == Yield(xArr, yArr, if Labelled() then Some(emojiArr) else None)
        invariant fresh(xArr) && fresh(yArr) && (fresh(emojiArr) || emojiArr == old(emojiArr))
        decreases NBatches() - k
      {
        var p := Next();
        k := k + 1;
      }
      ModOfSum(1, NBatches(), 0);
    }
  }
}
