/** Length normalisation and the sliding-window sampler: every post is
    padded or truncated to `length` characters, and windows of `window`
    characters start at offsets `0, step, 2*step, ...` below
    `length - window`, each paired with the character that follows it
    (`pad_text`, `get_series_data_from_tweet`,
    `get_emoji_and_series_data_from_tweet`). */
module Sampling {

  /** One row of the data table: the post and its emoji label. */
  datatype Tweet = Tweet(text: string, emoji: string)

  /** `pad_text`: truncate to `length`, or left-pad with spaces to `length`. */
  function PadText(text: string, length: nat): (r: string)
    ensures |r| == length
    ensures |text| > length ==> r == text[..length]
    ensures |text| <= length ==>
              && (forall i :: 0 <= i < length - |text| ==> r[i] == ' ')
              && r[length - |text|..] == text
  {
    if |text| > length then text[..length]
    else seq(length - |text|, _ => ' ') + text
  }

  /** The size of `range(0, length - window, step)`: the ceiling of
      `(length - window) / step`, and zero when `length <= window`. */
  function WindowCount(length: nat, window: nat, step: nat): nat
    requires step > 0
  {
    if length <= window then 0 else (length - window + step - 1) / step
  }

  /** The windows at offsets `start, start + step, ...` while the offset is
      below `|padded| - window`: the tail of the sampler's loop from `start`. */
  function WindowsFrom(padded: string, window: nat, step: nat, start: nat): seq<string>
    requires step > 0
    decreases |padded| - start
  {
    if start + window < |padded| then
      [padded[start..start + window]] + WindowsFrom(padded, window, step, start + step)
    else []
  }

  /** The characters right after each window of `WindowsFrom`. */
  function NextCharsFrom(padded: string, window: nat, step: nat, start: nat): seq<char>
    requires step > 0
    decreases |padded| - start
  {
    if start + window < |padded| then
      [padded[start + window]] + NextCharsFrom(padded, window, step, start + step)
    else []
  }

  function Windows(padded: string, window: nat, step: nat): seq<string>
    requires step > 0
  {
    WindowsFrom(padded, window, step, 0)
  }

  function NextChars(padded: string, window: nat, step: nat): seq<char>
    requires step > 0
  {
    NextCharsFrom(padded, window, step, 0)
  }

  lemma {:induction false} MulAtLeast(m: int, d: int)
    requires m >= 1 && d > 0
    ensures m * d >= d
  {
    if m > 1 {
      MulAtLeast(m - 1, d);
      assert m * d == (m - 1) * d + d;
    }
  }

  /** Integer division by `d` is determined by the quotient and remainder. */
  lemma DivBySum(q: int, d: int, r: int)
    requires d > 0 && 0 <= r < d
    ensures (q * d + r) / d == q
  {
    var x := q * d + r;
    var q', r' := x / d, x % d;
    assert x == q' * d + r';
    if q' < q {
      var m := q - q';
      assert m * d == q * d - q' * d;
      MulAtLeast(m, d);
    } else if q' > q {
      var m := q' - q;
      assert m * d == q' * d - q * d;
      MulAtLeast(m, d);
    }
  }

  /** One more offset: the ceiling of `a / d` is one more than that of `(a - d) / d`. */
  lemma CeilStep(a: int, d: int)
    requires d > 0 && a > d
    ensures (a + d - 1) / d == 1 + (a - 1) / d
  {
    var q := (a - 1) / d;
    var r := (a - 1) % d;
    assert a - 1 == q * d + r;
    DivBySum(q + 1, d, r);
    assert a + d - 1 == (q + 1) * d + r;
  }

  /** Peeling one offset off `range(0, a, d)` for `a > 0`. */
  lemma CeilPeel(a: int, d: int)
    requires d > 0 && a > 0
    ensures (a + d - 1) / d == 1 + (if a <= d then 0 else (a - d + d - 1) / d)
  {
    if a <= d {
      DivBySum(1, d, a - 1);
      assert a + d - 1 == 1 * d + (a - 1);
    } else {
      CeilStep(a, d);
      assert (a - d) + d - 1 == a - 1;
    }
  }

  /** The sampler emits exactly `WindowCount` windows from the offsets after `start`. */
  lemma {:induction false} WindowsFromCount(padded: string, window: nat, step: nat, start: nat)
    requires step > 0 && start <= |padded|
    decreases |padded| - start
    ensures |WindowsFrom(padded, window, step, start)| == |NextCharsFrom(padded, window, step, start)|
    ensures |WindowsFrom(padded, window, step, start)| == WindowCount(|padded| - start, window, step)
  {
    if start + window < |padded| {
      if start + step <= |padded| {
        WindowsFromCount(padded, window, step, start + step);
      }
      CeilPeel(|padded| - start - window, step);
    }
  }

  /** The number of windows per post is the ceiling of
      `(length - window) / step`, none when `length <= window`. */
  lemma WindowsCount(padded: string, window: nat, step: nat)
    requires step > 0
    ensures |Windows(padded, window, step)| == |NextChars(padded, window, step)|
              == WindowCount(|padded|, window, step)
  {
    WindowsFromCount(padded, window, step, 0);
  }

  /** The `k`-th window of the tail from `start` begins at `start + k * step`. */
  lemma {:induction false} WindowsFromAt(padded: string, window: nat, step: nat, start: nat, k: nat)
    requires step > 0
    requires k < |WindowsFrom(padded, window, step, start)|
    decreases k
    ensures start + k * step + window < |padded|
    ensures k < |NextCharsFrom(padded, window, step, start)|
    ensures WindowsFrom(padded, window, step, start)[k] == padded[start + k * step..start + k * step + window]
    ensures NextCharsFrom(padded, window, step, start)[k] == padded[start + k * step + window]
  {
    assert start + window < |padded|;
    var windows := WindowsFrom(padded, window, step, start + step);
    var nexts := NextCharsFrom(padded, window, step, start + step);
    assert WindowsFrom(padded, window, step, start) == [padded[start..start + window]] + windows;
    assert NextCharsFrom(padded, window, step, start) == [padded[start + window]] + nexts;
    if k > 0 {
      WindowsFromAt(padded, window, step, start + step, k - 1);
      assert start + step + (k - 1) * step == start + k * step;
    }
  }

  /** Window `k` followed by its next character is the slice of the padded
      text at offset `k * step`, of length `window + 1`. */
  lemma WindowAdjacency(padded: string, window: nat, step: nat, k: nat)
    requires step > 0 && k < WindowCount(|padded|, window, step)
    ensures k < |Windows(padded, window, step)| && k < |NextChars(padded, window, step)|
    ensures k * step + window < |padded|
    ensures |Windows(padded, window, step)[k]| == window
    ensures Windows(padded, window, step)[k] + [NextChars(padded, window, step)[k]]
              == padded[k * step..k * step + window + 1]
  {
    WindowsCount(padded, window, step);
    WindowsFromAt(padded, window, step, 0, k);
    assert padded[k * step..k * step + window + 1]
        == padded[k * step..k * step + window] + [padded[k * step + window]];
  }

  /** With the defaults (length 160, window 40, step 3) a post yields 40 windows. */
  lemma DefaultWindowCount()
    ensures WindowCount(160, 40, 3) == 40
  {
  }

  /** `get_series_data_from_tweet`: pad the post, then collect every window
      and the character after it. */
  method SeriesData(tweet: Tweet, length: nat, window: nat, step: nat)
    returns (sentences: seq<string>, nextChars: seq<char>)
    requires step > 0
    ensures sentences == Windows(PadText(tweet.text, length), window, step)
    ensures nextChars == NextChars(PadText(tweet.text, length), window, step)
  {
    sentences, nextChars := [], [];
    var padded := PadText(tweet.text, length);
    var i := 0;
    while i < length - window
      invariant sentences + WindowsFrom(padded, window, step, i) == Windows(padded, window, step)
      invariant nextChars + NextCharsFrom(padded, window, step, i) == NextChars(padded, window, step)
      decreases length - i
    {
      assert WindowsFrom(padded, window, step, i) == [padded[i..i + window]] + WindowsFrom(padded, window, step, i + step);
      assert NextCharsFrom(padded, window, step, i) == [padded[i + window]] + NextCharsFrom(padded, window, step, i + step);
      sentences := sentences + [padded[i..i + window]];
      nextChars := nextChars + [padded[i + window]];
      i := i + step;
    }
  }

  /** `get_emoji_and_series_data_from_tweet`: the same windows, each paired
      with the post's one label. */
  method EmojiSeriesData(tweet: Tweet, length: nat, window: nat, step: nat)
    returns (sentences: seq<string>, emoji: seq<string>, nextChars: seq<char>)
    requires step > 0
    ensures sentences == Windows(PadText(tweet.text, length), window, step)
    ensures nextChars == NextChars(PadText(tweet.text, length), window, step)
    ensures |emoji| == |sentences| && forall k :: 0 <= k < |emoji| ==> emoji[k] == tweet.emoji
  {
    sentences, emoji, nextChars := [], [], [];
    var padded := PadText(tweet.text, length);
    var i := 0;
    while i < length - window
      invariant sentences + WindowsFrom(padded, window, step, i) == Windows(padded, window, step)
      invariant nextChars + NextCharsFrom(padded, window, step, i) == NextChars(padded, window, step)
      invariant emoji == seq(|sentences|, _ => tweet.emoji)
      decreases length - i
    {
      assert WindowsFrom(padded, window, step, i) == [padded[i..i + window]] + WindowsFrom(padded, window, step, i + step);
      assert NextCharsFrom(padded, window, step, i) == [padded[i + window]] + NextCharsFrom(padded, window, step, i + step);
      sentences := sentences + [padded[i..i + window]];
      nextChars := nextChars + [padded[i + window]];
      emoji := emoji + [tweet.emoji];
      i := i + step;
    }
  }

  /** The repository's sampler test compares window `k` plus its next
      character with the UNPADDED text at offset `3 * k`. A post shorter
      than `length` is left-padded with spaces, so whenever the post does
      not itself start with a space the very first window disagrees. */
  lemma UnpaddedExpectationFails(text: string, length: nat, window: nat, step: nat)
    requires step > 0 && window < |text| < length
    requires text[0] != ' '
    ensures |Windows(PadText(text, length), window, step)| > 0
    ensures Windows(PadText(text, length), window, step)[0] + [NextChars(PadText(text, length), window, step)[0]]
              != text[0..window + 1]
  {
    var padded := PadText(text, length);
    WindowAdjacency(padded, window, step, 0);
    assert padded[0] == ' ';
    assert padded[0..window + 1][0] == ' ';
  }

  /** The test's own post: 119 characters starting with `r`, with the
      defaults (160, 40, 3). */
  lemma UnpaddedTestExpectationFails(text: string)
    requires text == "red and yellow and pink and green, " + "orange and purple and blue, " + "I can sing a rainbow, " + "sing a rainbow, sing a rainbow too"
    ensures |text| == 119
    ensures Windows(PadText(text, 160), 40, 3)[0] + [NextChars(PadText(text, 160), 40, 3)[0]] != text[0..41]
  {
    assert text[0] == 'r';
    UnpaddedExpectationFails(text, 160, 40, 3);
  }
}
